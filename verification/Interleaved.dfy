/** Several processes, each with its own cache, whose requests interleave at every await. */
module Interleaved {
  import opened Clock
  import opened Wrappers
  import opened Ordering
  import opened Catalogue
  import opened Menus
  import opened Caching
  import opened Serving

  type Pid = nat

  /** One committed state of the tables, and when it was committed. */
  datatype Version = Version(db: Db, since: Time)

  /** A menu with two facts the program does not keep: which version it was read from, and when. */
  datatype Stored = Stored(menu: Menu, version: nat, readAt: Time)

  /** What a cache holds for a slug: the copy, and when a request stored it. */
  datatype Held = Held(copy: Stored, storedAt: Time)

  type Entries = map<string, Entry<Held>>

  /** A menu request after its cache miss: about to read the tables, or holding a built menu. */
  datatype Reader = Missed(pid: Pid, slug: string) | Built(pid: Pid, slug: string, copy: Stored)

  datatype Net = Net(
    history: seq<Version>, now: Time, caches: map<Pid, Entries>,
    readers: map<Id, Reader>, writers: map<Id, Pid>)

  datatype Action =
    | Tick(delta: nat)
    | Ask(rid: Id, pid: Pid, slug: string)                    // cache lookup
    | Read(rid: Id)                                           // the database answers
    | Store(rid: Id)                                          // cache store and reply
    | Commit(wid: Id, pid: Pid, db: Db, clears: bool)         // any write of any request
    | Clear(wid: Id)                                          // the writer clears its process's menus
    | Restart(pid: Pid)                                       // the process starts afresh

  /** A reply to a menu request: when, where, and the copy it came from. */
  datatype Delivery = Delivery(at: Time, pid: Pid, slug: string, copy: Stored, storedAt: Time)

  function Tables(n: Net): Db
    requires n.history != []
  {
    n.history[|n.history| - 1].db
  }

  function CacheOf(n: Net, pid: Pid): Entries {
    if pid in n.caches then n.caches[pid] else map[]
  }

  ghost function Next(n: Net, a: Action): Net
    requires n.history != []
    ensures Next(n, a).history != []
  {
    match a
    case Tick(delta) => n.(now := n.now + delta)
    case Ask(rid, pid, slug) =>
      if rid in n.readers || Lookup(CacheOf(n, pid), CacheKey(slug), n.now).Some? then n
      else n.(caches := n.caches[pid := AfterLookup(CacheOf(n, pid), CacheKey(slug), n.now)],
              readers := n.readers[rid := Missed(pid, slug)])
    case Read(rid) =>
      if rid in n.readers && n.readers[rid].Missed? then
        var Missed(pid, slug) := n.readers[rid];
        match MenuFor(Tables(n), slug)
        case None => n.(readers := n.readers - {rid})
        case Some(m) => n.(readers := n.readers[rid := Built(pid, slug, Stored(m, |n.history| - 1, n.now))])
      else n
    case Store(rid) =>
      if rid in n.readers && n.readers[rid].Built? then
        var Built(pid, slug, copy) := n.readers[rid];
        n.(caches := n.caches[pid := CacheOf(n, pid)[CacheKey(slug) := Entry(Held(copy, n.now), n.now + MENU_TTL)]],
           readers := n.readers - {rid})
      else n
    case Commit(wid, pid, db, clears) =>
      n.(history := n.history + [Version(db, n.now)],
         writers := if clears then n.writers[wid := pid] else n.writers)
    case Clear(wid) =>
      if wid in n.writers then
        n.(caches := n.caches[n.writers[wid] := Dropped(CacheOf(n, n.writers[wid]), PREFIX)],
           writers := n.writers - {wid})
      else n
    case Restart(pid) =>
      n.(caches := n.caches - {pid},
         readers := map rid | rid in n.readers && n.readers[rid].pid != pid :: n.readers[rid],
         writers := map wid | wid in n.writers && n.writers[wid] != pid :: n.writers[wid])
  }

  /** The menu an action serves: a cache hit, or the end of a miss. */
  function Output(n: Net, a: Action): Option<Delivery> {
    match a
    case Ask(rid, pid, slug) =>
      if rid !in n.readers && Lookup(CacheOf(n, pid), CacheKey(slug), n.now).Some? then
        var entry := CacheOf(n, pid)[CacheKey(slug)];
        Some(Delivery(n.now, pid, slug, entry.value.copy, entry.value.storedAt))
      else None
    case Store(rid) =>
      if rid in n.readers && n.readers[rid].Built? then
        Some(Delivery(n.now, n.readers[rid].pid, n.readers[rid].slug, n.readers[rid].copy, n.now))
      else None
    case _ => None
  }

  ghost function Run(n: Net, actions: seq<Action>): Net
    requires n.history != []
    ensures Run(n, actions).history != []
    decreases |actions|
  {
    if actions == [] then n else Run(Next(n, actions[0]), actions[1..])
  }

  function Start(db: Db, now: Time): Net { Net([Version(db, now)], now, map[], map[], map[]) }

  // ----- Without interleaving the steps are the serial service

  /** A process's cache without the bookkeeping. */
  function Plain(entries: Entries): map<string, Entry<Menu>> {
    map k | k in entries :: Entry(entries[k].value.copy.menu, entries[k].expires)
  }

  function Alone(n: Net, pid: Pid): System
    requires n.history != []
  {
    System(Tables(n), Plain(CacheOf(n, pid)))
  }

  lemma PlainLookup(entries: Entries, key: string, now: Time)
    ensures Lookup(Plain(entries), key, now) ==
            if Lookup(entries, key, now).Some? then Some(Lookup(entries, key, now).value.copy.menu) else None
    ensures AfterLookup(Plain(entries), key, now) == Plain(AfterLookup(entries, key, now))
  {
  }

  lemma PlainStore(entries: Entries, key: string, entry: Entry<Held>)
    ensures Plain(entries[key := entry]) == Plain(entries)[key := Entry(entry.value.copy.menu, entry.expires)]
  {
  }

  lemma SoloHit(n: Net, rid: Id, pid: Pid, slug: string)
    requires n.history != [] && rid !in n.readers && Lookup(CacheOf(n, pid), CacheKey(slug), n.now).Some?
    ensures Next(n, Ask(rid, pid, slug)) == n
    ensures ServeVisit(Alone(n, pid), slug, n.now) ==
            (Served(Output(n, Ask(rid, pid, slug)).value.copy.menu), Alone(n, pid))
  {
    PlainLookup(CacheOf(n, pid), CacheKey(slug), n.now);
  }

  lemma SoloAsk(n: Net, rid: Id, pid: Pid, slug: string)
    requires n.history != [] && rid !in n.readers && Lookup(CacheOf(n, pid), CacheKey(slug), n.now).None?
    ensures var asked := Next(n, Ask(rid, pid, slug));
            && asked.history == n.history && asked.now == n.now
            && asked.readers == n.readers[rid := Missed(pid, slug)]
            && CacheOf(asked, pid) == AfterLookup(CacheOf(n, pid), CacheKey(slug), n.now)
  {
  }

  /** What a reader holds right after the database has answered. */
  ghost function CopyNow(n: Net, slug: string): Stored
    requires n.history != [] && MenuFor(Tables(n), slug).Some?
  {
    Stored(MenuFor(Tables(n), slug).value, |n.history| - 1, n.now)
  }

  lemma SoloRead(n: Net, rid: Id, pid: Pid, slug: string)
    requires n.history != [] && rid in n.readers && n.readers[rid] == Missed(pid, slug)
    ensures var read := Next(n, Read(rid));
            && read.history == n.history && read.now == n.now && read.caches == n.caches
            && (MenuFor(Tables(n), slug) == None ==> rid !in read.readers)
            && (MenuFor(Tables(n), slug).Some? ==>
                  && rid in read.readers
                  && read.readers[rid] == Built(pid, slug, CopyNow(n, slug)))
  {
  }

  lemma SoloStore(n: Net, rid: Id, pid: Pid, slug: string, copy: Stored)
    requires n.history != [] && rid in n.readers && n.readers[rid] == Built(pid, slug, copy)
    ensures var stored := Next(n, Store(rid));
            && stored.history == n.history
            && CacheOf(stored, pid) == CacheOf(n, pid)[CacheKey(slug) := Entry(Held(copy, n.now), n.now + MENU_TTL)]
            && stored.now == n.now && stored.readers == n.readers - {rid}
            && Output(n, Store(rid)) == Some(Delivery(n.now, pid, slug, copy, n.now))
  {
  }

  lemma SoloAskRead(n: Net, rid: Id, pid: Pid, slug: string, asked: Net, read: Net)
    requires n.history != [] && rid !in n.readers && Lookup(CacheOf(n, pid), CacheKey(slug), n.now).None?
    requires asked == Next(n, Ask(rid, pid, slug)) && read == Next(asked, Read(rid))
    ensures read.history == n.history && read.now == n.now
    ensures CacheOf(read, pid) == AfterLookup(CacheOf(n, pid), CacheKey(slug), n.now)
    ensures MenuFor(Tables(n), slug).Some? ==>
              rid in read.readers && read.readers[rid] == Built(pid, slug, CopyNow(n, slug))
  {
    SoloAsk(n, rid, pid, slug);
    SoloRead(asked, rid, pid, slug);
  }

  /** The serial service on a miss, in terms of a cache with the bookkeeping. */
  lemma PlainVisit(db: Db, before: Entries, slug: string, now: Time, copy: Stored, after: Entries)
    requires Lookup(before, CacheKey(slug), now).None? && MenuFor(db, slug) == Some(copy.menu)
    requires after == AfterLookup(before, CacheKey(slug), now)[CacheKey(slug) := Entry(Held(copy, now), now + MENU_TTL)]
    ensures ServeVisit(System(db, Plain(before)), slug, now) == (Served(copy.menu), System(db, Plain(after)))
  {
    PlainLookup(before, CacheKey(slug), now);
    PlainStore(AfterLookup(before, CacheKey(slug), now), CacheKey(slug), Entry(Held(copy, now), now + MENU_TTL));
  }

  /** A menu request with nothing in between. */
  function SoloRequest(rid: Id, pid: Pid, slug: string): seq<Action> {
    [Ask(rid, pid, slug)] + ([Read(rid)] + [Store(rid)])
  }

  lemma SoloSteps(n: Net, rid: Id, pid: Pid, slug: string)
    requires n.history != [] && rid !in n.readers && Lookup(CacheOf(n, pid), CacheKey(slug), n.now).None?
    requires MenuFor(Tables(n), slug).Some?
    ensures var asked := Next(n, Ask(rid, pid, slug));
            Output(Next(asked, Read(rid)), Store(rid)) == Some(Delivery(n.now, pid, slug, CopyNow(n, slug), n.now))
    ensures var stored := Run(n, SoloRequest(rid, pid, slug));
            && stored.history == n.history
            && CacheOf(stored, pid) == AfterLookup(CacheOf(n, pid), CacheKey(slug), n.now)
                                         [CacheKey(slug) := Entry(Held(CopyNow(n, slug), n.now), n.now + MENU_TTL)]
  {
    hide MenuFor;
    var asked := Next(n, Ask(rid, pid, slug));
    var read := Next(asked, Read(rid));
    SoloAskRead(n, rid, pid, slug, asked, read);
    SoloStore(read, rid, pid, slug, CopyNow(n, slug));
    RunCons(n, Ask(rid, pid, slug), [Read(rid)] + [Store(rid)]);
    RunCons(asked, Read(rid), [Store(rid)]);
    RunOne(read, Store(rid));
  }

  /** A menu request that runs alone through its three steps serves the current menu and leaves the
      tables and the cache as the serial service does. */
  lemma SoloMiss(n: Net, rid: Id, pid: Pid, slug: string)
    requires n.history != [] && rid !in n.readers && Lookup(CacheOf(n, pid), CacheKey(slug), n.now).None?
    requires MenuFor(Tables(n), slug).Some?
    ensures ServeVisit(Alone(n, pid), slug, n.now) ==
            (Served(CopyNow(n, slug).menu), Alone(Run(n, SoloRequest(rid, pid, slug)), pid))
  {
    hide MenuFor;
    SoloSteps(n, rid, pid, slug);
    PlainVisit(Tables(n), CacheOf(n, pid), slug, n.now, CopyNow(n, slug),
               CacheOf(Run(n, SoloRequest(rid, pid, slug)), pid));
  }

  lemma SoloNotFound(n: Net, rid: Id, pid: Pid, slug: string, asked: Net, read: Net)
    requires n.history != [] && rid !in n.readers && Lookup(CacheOf(n, pid), CacheKey(slug), n.now).None?
    requires MenuFor(Tables(n), slug) == None
    requires asked == Next(n, Ask(rid, pid, slug)) && read == Next(asked, Read(rid))
    ensures ServeVisit(Alone(n, pid), slug, n.now) == (Failed(NotFound), Alone(read, pid))
  {
    SoloAskRead(n, rid, pid, slug, asked, read);
    PlainLookup(CacheOf(n, pid), CacheKey(slug), n.now);
  }

  /** So does an owner's request: commit, then clear. */
  lemma SoloWrite(n: Net, wid: Id, pid: Pid, req: Request, id: Id)
    requires n.history != [] && wid !in n.writers && Write(Tables(n), req, Env(n.now, id)).Ok?
    ensures var committed := Next(n, Commit(wid, pid, After(Tables(n), req, Env(n.now, id)), Invalidates(req)));
            Alone(Next(committed, Clear(wid)), pid) == ServeOwner(Alone(n, pid), req, Env(n.now, id)).1
  {
  }

  // ----- Every served menu was true when read, and at most 300 seconds stale

  /** `copy` is the menu of `slug` in a version that was current when the copy was read. */
  ghost predicate WasTrue(history: seq<Version>, slug: string, copy: Stored) {
    && copy.version < |history|
    && history[copy.version].since <= copy.readAt
    && (copy.version + 1 < |history| ==> copy.readAt <= history[copy.version + 1].since)
    && MenuFor(history[copy.version].db, slug) == Some(copy.menu)
  }

  ghost predicate EntryInv(n: Net, key: string, entry: Entry<Held>) {
    && PREFIX <= key
    && WasTrue(n.history, key[|PREFIX|..], entry.value.copy)
    && entry.value.copy.readAt <= entry.value.storedAt <= n.now
    && entry.expires == entry.value.storedAt + MENU_TTL
  }

  ghost predicate ReaderInv(n: Net, reader: Reader) {
    reader.Built? ==> WasTrue(n.history, reader.slug, reader.copy) && reader.copy.readAt <= n.now
  }

  ghost predicate NetInv(n: Net) {
    && n.history != [] && n.history[|n.history| - 1].since <= n.now
    && (forall pid, key :: pid in n.caches && key in n.caches[pid] ==> EntryInv(n, key, n.caches[pid][key]))
    && (forall rid :: rid in n.readers ==> ReaderInv(n, n.readers[rid]))
  }

  lemma KeyRoundTrip(slug: string)
    ensures CacheKey(slug)[|PREFIX|..] == slug && PREFIX <= CacheKey(slug)
  {
  }

  /** Where a cache entry comes from: it was there, or a reader has just stored it. */
  lemma EntryOrigin(n: Net, a: Action, pid: Pid, key: string)
    requires n.history != [] && pid in Next(n, a).caches && key in Next(n, a).caches[pid]
    ensures var entry := Next(n, a).caches[pid][key];
            || (pid in n.caches && key in n.caches[pid] && n.caches[pid][key] == entry)
            || (&& a.Store? && a.rid in n.readers && n.readers[a.rid].Built? && n.readers[a.rid].pid == pid
                && key == CacheKey(n.readers[a.rid].slug)
                && entry == Entry(Held(n.readers[a.rid].copy, n.now), n.now + MENU_TTL))
  {
  }

  /** Where a built menu in flight comes from: it was there, or it has just been read. */
  lemma ReaderOrigin(n: Net, a: Action, rid: Id)
    requires n.history != [] && rid in Next(n, a).readers && Next(n, a).readers[rid].Built?
    ensures var r := Next(n, a).readers[rid];
            || (rid in n.readers && n.readers[rid] == r)
            || (&& MenuFor(Tables(n), r.slug) == Some(r.copy.menu) && Next(n, a).history == n.history
                && r.copy.version == |n.history| - 1 && r.copy.readAt == n.now == Next(n, a).now
                && a == Read(rid) && rid in n.readers && n.readers[rid] == Missed(r.pid, r.slug))
  {
  }

  /** History and clock only grow, and a new version starts now. */
  ghost predicate Grows(n: Net, next: Net) {
    && n.now <= next.now && n.history <= next.history
    && forall v :: |n.history| <= v < |next.history| ==> next.history[v].since == n.now
  }

  lemma StillTrue(n: Net, next: Net, slug: string, copy: Stored)
    requires Grows(n, next) && WasTrue(n.history, slug, copy) && copy.readAt <= n.now
    ensures WasTrue(next.history, slug, copy)
  {
  }

  lemma InvKept(n: Net, a: Action)
    requires NetInv(n)
    ensures NetInv(Next(n, a))
  {
    var next := Next(n, a);
    assert Grows(n, next) && next.history[|next.history| - 1].since <= next.now;
    forall pid, key | pid in next.caches && key in next.caches[pid]
      ensures EntryInv(next, key, next.caches[pid][key])
    {
      var entry := next.caches[pid][key];
      EntryOrigin(n, a, pid, key);
      if pid in n.caches && key in n.caches[pid] && n.caches[pid][key] == entry {
        assert EntryInv(n, key, entry);
      } else {
        assert ReaderInv(n, n.readers[a.rid]);
        KeyRoundTrip(n.readers[a.rid].slug);
      }
      StillTrue(n, next, key[|PREFIX|..], entry.value.copy);
    }
    forall rid | rid in next.readers ensures ReaderInv(next, next.readers[rid]) {
      ReaderKept(n, a, rid);
    }
  }

  lemma ReaderKept(n: Net, a: Action, rid: Id)
    requires NetInv(n) && rid in Next(n, a).readers && Grows(n, Next(n, a))
    ensures ReaderInv(Next(n, a), Next(n, a).readers[rid])
  {
    hide Next, MenuFor;
    var reader := Next(n, a).readers[rid];
    if reader.Built? {
      ReaderOrigin(n, a, rid);
      if rid in n.readers && n.readers[rid] == reader {
        assert ReaderInv(n, reader);
        StillTrue(n, Next(n, a), reader.slug, reader.copy);
      }
    }
  }

  lemma {:induction false} InvAlways(n: Net, actions: seq<Action>)
    requires NetInv(n)
    ensures NetInv(Run(n, actions))
    decreases |actions|
  {
    if actions != [] {
      InvKept(n, actions[0]);
      InvAlways(Next(n, actions[0]), actions[1..]);
    }
  }

  /** After any interleaving: whatever is served was the menu at some read moment, was stored no
      earlier than that, and is served at most 300 seconds after it was stored. */
  lemma BoundedStaleness(db: Db, start: Time, actions: seq<Action>, a: Action)
    ensures var n := Run(Start(db, start), actions);
            var out := Output(n, a);
            out.Some? ==>
              && WasTrue(n.history, out.value.slug, out.value.copy)
              && out.value.copy.readAt <= out.value.storedAt <= out.value.at == n.now
              && out.value.at <= out.value.storedAt + 300_000_000
  {
    InvAlways(Start(db, start), actions);
    var n := Run(Start(db, start), actions);
    if a.Ask? && Output(n, a).Some? {
      KeyRoundTrip(a.slug);
      assert EntryInv(n, CacheKey(a.slug), CacheOf(n, a.pid)[CacheKey(a.slug)]);
    }
    if a.Store? && Output(n, a).Some? {
      assert ReaderInv(n, n.readers[a.rid]);
    }
  }

  // ----- Every served menu was read, and stored, in the course of the run

  lemma {:induction false} RunSnoc(n: Net, actions: seq<Action>, a: Action)
    requires n.history != []
    ensures Run(n, actions + [a]) == Next(Run(n, actions), a)
    decreases |actions|
  {
    if actions == [] {
      assert [] + [a] == [a];
      RunOne(n, a);
    } else {
      assert (actions + [a])[1..] == actions[1..] + [a];
      RunSnoc(Next(n, actions[0]), actions[1..], a);
    }
  }

  /** At step j the database answers a request of process `pid` with what `copy` holds. */
  ghost predicate ReadAt(n: Net, actions: seq<Action>, j: nat, pid: Pid, slug: string, copy: Stored)
    requires n.history != []
  {
    j < |actions| && actions[j].Read? &&
    var m := Run(n, actions[..j]);
    && actions[j].rid in m.readers && m.readers[actions[j].rid] == Missed(pid, slug)
    && MenuFor(Tables(m), slug) == Some(copy.menu)
    && copy.version == |m.history| - 1 && copy.readAt == m.now
  }

  /** At step k process `pid` stores `held`, and replies with it. */
  ghost predicate StoredAt(n: Net, actions: seq<Action>, k: nat, pid: Pid, slug: string, held: Held)
    requires n.history != []
  {
    k < |actions| && actions[k].Store?
    && Output(Run(n, actions[..k]), actions[k]) ==
       Some(Delivery(held.storedAt, pid, slug, held.copy, held.storedAt))
  }

  ghost predicate WasRead(n: Net, actions: seq<Action>, pid: Pid, slug: string, copy: Stored)
    requires n.history != []
  {
    exists j: nat :: ReadAt(n, actions, j, pid, slug, copy)
  }

  ghost predicate WasStored(n: Net, actions: seq<Action>, pid: Pid, slug: string, held: Held)
    requires n.history != []
  {
    exists k: nat :: StoredAt(n, actions, k, pid, slug, held) && WasRead(n, actions[..k], pid, slug, held.copy)
  }

  ghost predicate EntryWasStored(n: Net, actions: seq<Action>, pid: Pid, key: string, held: Held)
    requires n.history != []
  {
    PREFIX <= key && WasStored(n, actions, pid, key[|PREFIX|..], held)
  }

  ghost predicate Accounted(n: Net, actions: seq<Action>)
    requires n.history != []
  {
    var m := Run(n, actions);
    && (forall rid :: rid in m.readers && m.readers[rid].Built? ==>
          WasRead(n, actions, m.readers[rid].pid, m.readers[rid].slug, m.readers[rid].copy))
    && (forall pid, key :: pid in m.caches && key in m.caches[pid] ==>
          EntryWasStored(n, actions, pid, key, m.caches[pid][key].value))
  }

  lemma StillRead(n: Net, actions: seq<Action>, a: Action, pid: Pid, slug: string, copy: Stored)
    requires n.history != [] && WasRead(n, actions, pid, slug, copy)
    ensures WasRead(n, actions + [a], pid, slug, copy)
  {
    var j: nat :| ReadAt(n, actions, j, pid, slug, copy);
    assert (actions + [a])[..j] == actions[..j];
    assert ReadAt(n, actions + [a], j, pid, slug, copy);
  }

  lemma StillStored(n: Net, actions: seq<Action>, a: Action, pid: Pid, slug: string, held: Held)
    requires n.history != [] && WasStored(n, actions, pid, slug, held)
    ensures WasStored(n, actions + [a], pid, slug, held)
  {
    var k: nat :| StoredAt(n, actions, k, pid, slug, held) && WasRead(n, actions[..k], pid, slug, held.copy);
    assert (actions + [a])[..k] == actions[..k];
    assert StoredAt(n, actions + [a], k, pid, slug, held);
  }

  lemma ReaderAccounted(n: Net, actions: seq<Action>, a: Action, rid: Id)
    requires n.history != [] && Accounted(n, actions)
    requires rid in Next(Run(n, actions), a).readers && Next(Run(n, actions), a).readers[rid].Built?
    ensures var r := Next(Run(n, actions), a).readers[rid];
            WasRead(n, actions + [a], r.pid, r.slug, r.copy)
  {
    hide MenuFor, Next;
    var m := Run(n, actions);
    var r := Next(m, a).readers[rid];
    ReaderOrigin(m, a, rid);
    if rid in m.readers && m.readers[rid] == r {
      StillRead(n, actions, a, r.pid, r.slug, r.copy);
    } else {
      assert (actions + [a])[..|actions|] == actions;
      assert ReadAt(n, actions + [a], |actions|, r.pid, r.slug, r.copy);
    }
  }

  lemma EntryAccounted(n: Net, actions: seq<Action>, a: Action, pid: Pid, key: string)
    requires n.history != [] && Accounted(n, actions)
    requires pid in Next(Run(n, actions), a).caches && key in Next(Run(n, actions), a).caches[pid]
    ensures EntryWasStored(n, actions + [a], pid, key, Next(Run(n, actions), a).caches[pid][key].value)
  {
    hide MenuFor, Next;
    var m := Run(n, actions);
    var entry := Next(m, a).caches[pid][key];
    EntryOrigin(m, a, pid, key);
    if pid in m.caches && key in m.caches[pid] && m.caches[pid][key] == entry {
      assert EntryWasStored(n, actions, pid, key, m.caches[pid][key].value);
      StillStored(n, actions, a, pid, key[|PREFIX|..], entry.value);
    } else {
      KeyRoundTrip(m.readers[a.rid].slug);
      assert (actions + [a])[..|actions|] == actions;
      assert StoredAt(n, actions + [a], |actions|, pid, key[|PREFIX|..], entry.value);
    }
  }

  lemma {:induction false} AccountedAlways(db: Db, start: Time, actions: seq<Action>)
    ensures Accounted(Start(db, start), actions)
    decreases |actions|
  {
    if actions != [] {
      var n, most, a := Start(db, start), actions[..|actions| - 1], actions[|actions| - 1];
      assert actions == most + [a];
      AccountedAlways(db, start, most);
      RunSnoc(n, most, a);
      var next := Next(Run(n, most), a);
      forall rid | rid in next.readers && next.readers[rid].Built?
        ensures WasRead(n, actions, next.readers[rid].pid, next.readers[rid].slug, next.readers[rid].copy)
      {
        ReaderAccounted(n, most, a, rid);
      }
      forall pid, key | pid in next.caches && key in next.caches[pid]
        ensures EntryWasStored(n, actions, pid, key, next.caches[pid][key].value)
      {
        EntryAccounted(n, most, a, pid, key);
      }
    }
  }

  /** After any interleaving: a menu served from a cache repeats the reply that some earlier step of the
      run made when it stored the menu in that process, at most 300 seconds before; and a menu served on
      a miss was read from the tables at some earlier step. */
  lemma ServedWasStored(db: Db, start: Time, actions: seq<Action>, a: Action)
    ensures var out := Output(Run(Start(db, start), actions), a);
            out.Some? && a.Ask? ==>
              && WasStored(Start(db, start), actions, a.pid, a.slug, Held(out.value.copy, out.value.storedAt))
              && out.value.at <= out.value.storedAt + 300_000_000
    ensures var out := Output(Run(Start(db, start), actions), a);
            out.Some? && a.Store? ==>
              WasRead(Start(db, start), actions, out.value.pid, out.value.slug, out.value.copy)
  {
    hide MenuFor, WasStored, WasRead;
    AccountedAlways(db, start, actions);
    BoundedStaleness(db, start, actions, a);
    if a.Ask? { KeyRoundTrip(a.slug); }
  }

  // ----- When the commits stop

  ghost predicate IsCurrent(n: Net, slug: string, menu: Menu)
    requires n.history != []
  {
    MenuFor(Tables(n), slug) == Some(menu)
  }

  ghost predicate CommitFree(actions: seq<Action>) {
    forall i :: 0 <= i < |actions| ==> !actions[i].Commit?
  }

  /** No request in flight holds an outdated menu. */
  ghost predicate ReadersCurrent(n: Net)
    requires n.history != []
  {
    forall rid :: rid in n.readers && n.readers[rid].Built? ==>
      IsCurrent(n, n.readers[rid].slug, n.readers[rid].copy.menu)
  }

  /** Without further commits, every menu served once the TTL has passed is the current one. */
  ghost predicate EventuallyCurrent(n: Net)
    requires n.history != []
  {
    forall actions, a :: CommitFree(actions) && Output(Run(n, actions), a).Some?
                         && Output(Run(n, actions), a).value.at > n.now + MENU_TTL ==>
      IsCurrent(n, Output(Run(n, actions), a).value.slug, Output(Run(n, actions), a).value.copy.menu)
  }

  /** An entry that is current, or that will have expired by the deadline. */
  ghost predicate Settled(n: Net, key: string, entry: Entry<Held>, deadline: Time)
    requires n.history != []
  {
    entry.expires <= deadline || (PREFIX <= key && IsCurrent(n, key[|PREFIX|..], entry.value.copy.menu))
  }

  ghost predicate Settling(n: Net, deadline: Time)
    requires n.history != []
  {
    && ReadersCurrent(n)
    && (forall pid, key :: pid in n.caches && key in n.caches[pid] ==>
          Settled(n, key, n.caches[pid][key], deadline))
  }

  lemma HistoryKept(n: Net, a: Action)
    requires n.history != [] && !a.Commit?
    ensures Next(n, a).history == n.history
  {
  }

  lemma ReadersCurrentKept(n: Net, a: Action, rid: Id)
    requires n.history != [] && ReadersCurrent(n) && Next(n, a).history == n.history
    requires rid in Next(n, a).readers && Next(n, a).readers[rid].Built?
    ensures IsCurrent(n, Next(n, a).readers[rid].slug, Next(n, a).readers[rid].copy.menu)
  {
    ReaderOrigin(n, a, rid);
  }

  lemma EntrySettledKept(n: Net, a: Action, pid: Pid, key: string, deadline: Time)
    requires n.history != [] && Settling(n, deadline) && Next(n, a).history == n.history
    requires pid in Next(n, a).caches && key in Next(n, a).caches[pid]
    ensures Settled(n, key, Next(n, a).caches[pid][key], deadline)
  {
    var entry := Next(n, a).caches[pid][key];
    EntryOrigin(n, a, pid, key);
    if pid in n.caches && key in n.caches[pid] && n.caches[pid][key] == entry {
      assert Settled(n, key, n.caches[pid][key], deadline);
    } else {
      KeyRoundTrip(n.readers[a.rid].slug);
    }
  }

  lemma SettlingKept(n: Net, a: Action, deadline: Time)
    requires n.history != [] && Settling(n, deadline) && !a.Commit?
    ensures Settling(Next(n, a), deadline) && Next(n, a).history == n.history
  {
    hide MenuFor;
    var next := Next(n, a);
    HistoryKept(n, a);
    forall rid | rid in next.readers && next.readers[rid].Built?
      ensures IsCurrent(next, next.readers[rid].slug, next.readers[rid].copy.menu)
    {
      ReadersCurrentKept(n, a, rid);
    }
    forall pid, key | pid in next.caches && key in next.caches[pid]
      ensures Settled(next, key, next.caches[pid][key], deadline)
    {
      EntrySettledKept(n, a, pid, key, deadline);
    }
  }

  lemma {:induction false} SettlingRun(n: Net, actions: seq<Action>, deadline: Time)
    requires NetInv(n) && Settling(n, deadline) && CommitFree(actions)
    ensures Settling(Run(n, actions), deadline) && Run(n, actions).history == n.history
    decreases |actions|
  {
    if actions != [] {
      InvKept(n, actions[0]);
      SettlingKept(n, actions[0], deadline);
      SettlingRun(Next(n, actions[0]), actions[1..], deadline);
    }
  }

  lemma RunOne(n: Net, a: Action)
    requires n.history != []
    ensures Run(n, [a]) == Next(n, a)
  {
    assert [a][1..] == [];
  }

  lemma SettledReply(n: Net, a: Action, deadline: Time)
    requires n.history != [] && Settling(n, deadline)
    requires Output(n, a).Some? && Output(n, a).value.at > deadline
    ensures IsCurrent(n, Output(n, a).value.slug, Output(n, a).value.copy.menu)
  {
    if a.Ask? {
      KeyRoundTrip(a.slug);
      assert Settled(n, CacheKey(a.slug), n.caches[a.pid][CacheKey(a.slug)], deadline);
    }
  }

  lemma SettlingNow(n: Net)
    requires NetInv(n) && ReadersCurrent(n)
    ensures Settling(n, n.now + MENU_TTL)
  {
    forall pid, key | pid in n.caches && key in n.caches[pid]
      ensures Settled(n, key, n.caches[pid][key], n.now + MENU_TTL)
    {
      assert EntryInv(n, key, n.caches[pid][key]);
    }
  }

  lemma SettledOutput(n: Net, actions: seq<Action>, a: Action)
    requires NetInv(n) && ReadersCurrent(n) && CommitFree(actions)
    requires Output(Run(n, actions), a).Some? && Output(Run(n, actions), a).value.at > n.now + MENU_TTL
    ensures IsCurrent(n, Output(Run(n, actions), a).value.slug, Output(Run(n, actions), a).value.copy.menu)
  {
    hide MenuFor;
    SettlingNow(n);
    SettlingRun(n, actions, n.now + MENU_TTL);
    SettledReply(Run(n, actions), a, n.now + MENU_TTL);
  }

  lemma LateReader(n: Net, rid: Id)
    requires n.history != [] && rid in n.readers && n.readers[rid].Built?
    requires !IsCurrent(n, n.readers[rid].slug, n.readers[rid].copy.menu)
    ensures !EventuallyCurrent(n)
  {
    var wait := [Tick(MENU_TTL + 1)];
    RunOne(n, wait[0]);
    var late := Run(n, wait);
    assert late == n.(now := n.now + MENU_TTL + 1);
    assert CommitFree(wait) && Output(late, Store(rid)).Some?;
  }

  /** The system settles on the current menus exactly when no request in flight holds an
      outdated one: such a request may store and serve it arbitrarily late. */
  lemma SettlesExactlyWhen(n: Net)
    requires NetInv(n)
    ensures EventuallyCurrent(n) <==> ReadersCurrent(n)
  {
    if ReadersCurrent(n) {
      forall actions, a | CommitFree(actions) && Output(Run(n, actions), a).Some?
                          && Output(Run(n, actions), a).value.at > n.now + MENU_TTL
        ensures IsCurrent(n, Output(Run(n, actions), a).value.slug, Output(Run(n, actions), a).value.copy.menu)
      {
        SettledOutput(n, actions, a);
      }
      assert EventuallyCurrent(n);
    } else {
      var rid :| rid in n.readers && n.readers[rid].Built?
                 && !IsCurrent(n, n.readers[rid].slug, n.readers[rid].copy.menu);
      LateReader(n, rid);
    }
  }

  // ----- Reading one's own writes

  /** From here on, process `pid` serves nothing older than version `v`. */
  ghost predicate NeverOlder(n: Net, pid: Pid, v: nat)
    requires n.history != []
  {
    forall actions, a :: Output(Run(n, actions), a).Some? && Output(Run(n, actions), a).value.pid == pid ==>
      Output(Run(n, actions), a).value.copy.version >= v
  }

  ghost predicate ReadersNoOlder(n: Net, pid: Pid, v: nat) {
    forall rid :: rid in n.readers && n.readers[rid].Built? && n.readers[rid].pid == pid ==>
      n.readers[rid].copy.version >= v
  }

  ghost predicate EntriesNoOlder(n: Net, pid: Pid, v: nat) {
    forall key :: pid in n.caches && key in n.caches[pid] ==> n.caches[pid][key].value.copy.version >= v
  }

  ghost predicate HoldsNothingOlder(n: Net, pid: Pid, v: nat) {
    v < |n.history| && ReadersNoOlder(n, pid, v) && EntriesNoOlder(n, pid, v)
  }

  lemma NothingOlderStep(n: Net, a: Action, pid: Pid, v: nat)
    requires HoldsNothingOlder(n, pid, v)
    ensures HoldsNothingOlder(Next(n, a), pid, v)
  {
    var next := Next(n, a);
    assert |n.history| <= |next.history|;
    forall rid | rid in next.readers && next.readers[rid].Built? && next.readers[rid].pid == pid
      ensures next.readers[rid].copy.version >= v
    {
      ReaderOrigin(n, a, rid);
    }
    forall key | pid in next.caches && key in next.caches[pid]
      ensures next.caches[pid][key].value.copy.version >= v
    {
      EntryOrigin(n, a, pid, key);
    }
  }

  lemma {:induction false} NothingOlderKept(n: Net, actions: seq<Action>, pid: Pid, v: nat)
    requires HoldsNothingOlder(n, pid, v)
    ensures HoldsNothingOlder(Run(n, actions), pid, v)
    decreases |actions|
  {
    if actions != [] {
      NothingOlderStep(n, actions[0], pid, v);
      NothingOlderKept(Next(n, actions[0]), actions[1..], pid, v);
    }
  }

  lemma NothingOlderServed(n: Net, a: Action, pid: Pid, v: nat)
    requires HoldsNothingOlder(n, pid, v) && Output(n, a).Some? && Output(n, a).value.pid == pid
    ensures Output(n, a).value.copy.version >= v
  {
    if a.Ask? { assert CacheKey(a.slug) in n.caches[pid]; }
  }

  /** A process that holds no menu serves nothing older than a version exactly when no request in
      flight there has read an older one. */
  lemma NeverOlderExactlyWhen(n: Net, pid: Pid, v: nat)
    requires v < |n.history| && CacheOf(n, pid) == map[]
    ensures NeverOlder(n, pid, v) <==> ReadersNoOlder(n, pid, v)
  {
    if ReadersNoOlder(n, pid, v) {
      forall actions, a | Output(Run(n, actions), a).Some? && Output(Run(n, actions), a).value.pid == pid
        ensures Output(Run(n, actions), a).value.copy.version >= v
      {
        NothingOlderKept(n, actions, pid, v);
        NothingOlderServed(Run(n, actions), a, pid, v);
      }
    } else {
      var rid :| rid in n.readers && n.readers[rid].Built? && n.readers[rid].pid == pid
                 && n.readers[rid].copy.version < v;
      assert Run(n, []) == n;
      assert Output(Run(n, []), Store(rid)).Some?;
    }
  }

  lemma ClearEmpties(n: Net, wid: Id)
    requires NetInv(n) && wid in n.writers
    ensures var next := Next(n, Clear(wid));
            && CacheOf(next, n.writers[wid]) == map[]
            && next.readers == n.readers && next.history == n.history
  {
    var pid := n.writers[wid];
    forall key | key in CacheOf(n, pid) ensures PREFIX <= key {
      assert EntryInv(n, key, n.caches[pid][key]);
    }
    assert Dropped(CacheOf(n, pid), PREFIX) == map[];
  }

  /** Once a writer has cleared its process's menus, that process serves nothing older than the
      writer's commit exactly when no request in flight there had read before the commit. */
  lemma ReadYourWrites(n: Net, wid: Id, v: nat)
    requires NetInv(n) && wid in n.writers && v < |n.history|
    ensures NeverOlder(Next(n, Clear(wid)), n.writers[wid], v) <==> ReadersNoOlder(n, n.writers[wid], v)
  {
    ClearEmpties(n, wid);
    NeverOlderExactlyWhen(Next(n, Clear(wid)), n.writers[wid], v);
  }

  /** A request misses and reads; an owner commits and clears; the request stores what it read. */
  function Race(slug: string, after: Db): seq<Action> {
    [Ask(0, 0, slug)] + ([Read(0)] + ([Commit(1, 0, after, true)] + ([Clear(1)] + [Store(0)])))
  }

  /** The race in one process: a request reads, an owner commits and clears, the request stores
      what it read, and the next visitor is served the outdated menu from the cache. */
  lemma StaleHitAfterClear(before: Db, after: Db, slug: string, now: Time)
    requires MenuFor(before, slug).Some? && MenuFor(after, slug) != MenuFor(before, slug)
    ensures var n := Run(Start(before, now), Race(slug, after));
            && Tables(n) == after
            && Output(n, Ask(2, 0, slug)).Some?
            && !IsCurrent(n, slug, Output(n, Ask(2, 0, slug)).value.copy.menu)
  {
    var n0 := Start(before, now);
    var n2 := Next(Next(n0, Ask(0, 0, slug)), Read(0));
    MissThenRead(n0, 0, 0, slug);
    RaceEnds(n2, slug, after, n2.readers[0].copy);
    RunCons(Next(n0, Ask(0, 0, slug)), Read(0), [Commit(1, 0, after, true)] + ([Clear(1)] + [Store(0)]));
    RunCons(n0, Ask(0, 0, slug), [Read(0)] + ([Commit(1, 0, after, true)] + ([Clear(1)] + [Store(0)])));
  }

  lemma RaceEnds(n2: Net, slug: string, after: Db, copy: Stored)
    requires n2.history != [] && n2.readers == map[0 := Built(0, slug, copy)]
    ensures var n := Run(n2, [Commit(1, 0, after, true)] + ([Clear(1)] + [Store(0)]));
            && Tables(n) == after && n.readers == map[]
            && CacheKey(slug) in CacheOf(n, 0)
            && CacheOf(n, 0)[CacheKey(slug)] == Entry(Held(copy, n.now), n.now + MENU_TTL)
  {
    var n3 := Next(n2, Commit(1, 0, after, true));
    var n4 := Next(n3, Clear(1));
    CommitThenClear(n2, after, n3, n4);
    SoloStore(n4, 0, 0, slug, copy);
    RunOne(n4, Store(0));
    RunCons(n3, Clear(1), [Store(0)]);
    RunCons(n2, Commit(1, 0, after, true), [Clear(1)] + [Store(0)]);
  }

  lemma CommitThenClear(n2: Net, after: Db, n3: Net, n4: Net)
    requires n2.history != [] && n3 == Next(n2, Commit(1, 0, after, true)) && n4 == Next(n3, Clear(1))
    ensures Tables(n4) == after && n4.readers == n2.readers && n4.history == n3.history
  {
  }

  lemma MissThenRead(n: Net, rid: Id, pid: Pid, slug: string)
    requires n.history != [] && rid !in n.readers && pid !in n.caches && MenuFor(Tables(n), slug).Some?
    ensures var next := Next(Next(n, Ask(rid, pid, slug)), Read(rid));
            && next.history == n.history && next.now == n.now && next.writers == n.writers
            && next.readers ==
               n.readers[rid := Built(pid, slug, Stored(MenuFor(Tables(n), slug).value, |n.history| - 1, n.now))]
  {
    var asked := Next(n, Ask(rid, pid, slug));
    assert asked.readers == n.readers[rid := Missed(pid, slug)];
  }

  lemma RunCons(n: Net, a: Action, rest: seq<Action>)
    requires n.history != []
    ensures Run(n, [a] + rest) == Run(Next(n, a), rest)
  {
    assert ([a] + rest)[1..] == rest;
  }
}
