/** What the connection cache promises, on values: which object `get` hands out
    and when a recycled one may come back. */
module CachePolicy {

  /** A recycled object and the event-loop count at which it was recycled. */
  datatype Entry = Entry(conn: nat, epoch: int)

  /** `created` numbers the objects ever allocated, so the next new object is
      `created` itself. */
  datatype Pool = Pool(cache: seq<Entry>, recycling: seq<Entry>, loop: int, created: nat)

  /** Length of the front of `s` recycled before `loop`. */
  function Expired(s: seq<Entry>, loop: int): (k: nat)
    ensures k <= |s|
    ensures forall i :: 0 <= i < k ==> s[i].epoch < loop
    ensures k < |s| ==> loop <= s[k].epoch
  {
    if s == [] || loop <= s[0].epoch then 0 else 1 + Expired(s[1..], loop)
  }

  lemma ExpiredIs(s: seq<Entry>, loop: int, k: nat)
    requires k <= |s|
    requires forall i :: 0 <= i < k ==> s[i].epoch < loop
    requires k < |s| ==> loop <= s[k].epoch
    ensures Expired(s, loop) == k
  {
  }

  /** The expired front moves to the cache when the cache is empty. */
  function Migrated(p: Pool): Pool
  {
    if p.cache != [] then p
    else
      var k := Expired(p.recycling, p.loop);
      p.(cache := p.recycling[..k], recycling := p.recycling[k..])
  }

  function Gotten(p: Pool): nat
  {
    var q := Migrated(p);
    if q.cache == [] then q.created else q.cache[0].conn
  }

  function AfterGet(p: Pool): Pool
  {
    var q := Migrated(p);
    if q.cache == [] then q.(created := q.created + 1) else q.(cache := q.cache[1..])
  }

  function AfterRecycle(p: Pool, conn: nat): Pool
  {
    p.(recycling := p.recycling + [Entry(conn, p.loop)])
  }

  // ---- Runs ----

  datatype Op = Get | Recycle(conn: nat) | Tick

  /** `live` are the objects handed out and not yet recycled, as often as they
      were. */
  datatype World = World(pool: Pool, live: multiset<nat>)

  const Start := World(Pool([], [], 0, 0), multiset{})

  /** A live object is recycled. */
  predicate Allowed(w: World, op: Op)
  {
    op.Recycle? ==> op.conn in w.live
  }

  function Step(w: World, op: Op): World
  {
    match op
    case Get => World(AfterGet(w.pool), w.live + multiset{Gotten(w.pool)})
    case Recycle(c) => World(AfterRecycle(w.pool, c), w.live - multiset{c})
    case Tick => w.(pool := w.pool.(loop := w.pool.loop + 1))
  }

  function After(w: World, ops: seq<Op>): World
  {
    if ops == [] then w else Step(After(w, ops[..|ops| - 1]), ops[|ops| - 1])
  }

  ghost predicate AllAllowed(w: World, ops: seq<Op>)
  {
    forall k :: 0 <= k < |ops| ==> Allowed(After(w, ops[..k]), ops[k])
  }

  // ---- Invariant ----

  ghost function Ids(s: seq<Entry>): multiset<nat>
  {
    if s == [] then multiset{} else multiset{s[0].conn} + Ids(s[1..])
  }

  lemma {:induction false} IdsConcat(a: seq<Entry>, b: seq<Entry>)
    ensures Ids(a + b) == Ids(a) + Ids(b)
  {
    if a == [] {
      assert a + b == b;
    } else {
      assert (a + b)[1..] == a[1..] + b;
      IdsConcat(a[1..], b);
    }
  }

  lemma IdsAppend(s: seq<Entry>, e: Entry)
    ensures Ids(s + [e]) == Ids(s) + multiset{e.conn}
  {
    IdsConcat(s, [e]);
  }

  lemma {:induction false} IdsHas(s: seq<Entry>, i: nat)
    requires i < |s|
    ensures s[i].conn in Ids(s)
  {
    if i > 0 {
      IdsHas(s[1..], i - 1);
    }
  }

  ghost function Below(n: nat): (s: set<nat>)
    ensures forall i: nat :: i in s <==> i < n
  {
    if n == 0 then {} else Below(n - 1) + {n - 1}
  }

  /** Live, cached and recycling objects are disjoint and together are all the
      objects ever created. */
  ghost predicate Partition(w: World)
  {
    Ids(w.pool.cache) + Ids(w.pool.recycling) + w.live == multiset(Below(w.pool.created))
  }

  /** Objects recycle in epoch order, and the cached ones are all from past
      epochs. */
  ghost predicate Aged(p: Pool)
  {
    && (forall e :: e in p.cache ==> e.epoch < p.loop)
    && (forall e :: e in p.recycling ==> e.epoch <= p.loop)
    && (forall i, j :: 0 <= i < j < |p.recycling| ==> p.recycling[i].epoch <= p.recycling[j].epoch)
  }

  ghost predicate Inv(w: World)
  {
    Partition(w) && Aged(w.pool)
  }

  lemma MigrationKeepsIds(p: Pool)
    ensures Ids(Migrated(p).cache) + Ids(Migrated(p).recycling) == Ids(p.cache) + Ids(p.recycling)
  {
    if p.cache == [] {
      var k := Expired(p.recycling, p.loop);
      assert p.recycling == p.recycling[..k] + p.recycling[k..];
      IdsConcat(p.recycling[..k], p.recycling[k..]);
    }
  }

  /** Migration splits the recycling objects exactly by age. */
  lemma MigrationExact(p: Pool, i: nat)
    requires Aged(p) && p.cache == [] && i < |p.recycling|
    ensures var k := |Migrated(p).cache|;
      && (p.recycling[i].epoch < p.loop <==> i < k)
      && (if i < k then Migrated(p).cache[i] else Migrated(p).recycling[i - k]) == p.recycling[i]
  {
  }

  lemma MigrationKeepsAge(p: Pool)
    requires Aged(p)
    ensures Aged(Migrated(p))
  {
  }

  lemma GetKeeps(w: World)
    requires Inv(w)
    ensures Inv(Step(w, Get))
    ensures Gotten(w.pool) !in w.live
  {
    hide Ids, Expired;
    var q := Migrated(w.pool);
    MigrationKeepsIds(w.pool);
    MigrationKeepsAge(w.pool);
    assert q.created == w.pool.created;
    hide Migrated;
    assert Partition(World(q, w.live));
    var c := Gotten(w.pool);
    if q.cache == [] {
      assert w.live[c] <= multiset(Below(c))[c];
      assert multiset(Below(c + 1)) == multiset(Below(c)) + multiset{c};
    } else {
      GetFromCache(World(q, w.live));
    }
  }

  /** The object recycled longest ago comes back first; a new one is created exactly
      when none is left from an earlier epoch. */
  lemma GetExactly(p: Pool)
    requires Aged(p)
    ensures var q, kept := AfterGet(p), p.cache + p.recycling;
      && q.loop == p.loop
      && if p.cache == [] && forall e :: e in p.recycling ==> e.epoch >= p.loop
         then Gotten(p) == p.created && q.created == p.created + 1 && q.cache + q.recycling == kept
         else && kept != [] && Gotten(p) == kept[0].conn && q.created == p.created
              && q.cache + q.recycling == kept[1..]
  {
    hide Migrated, Aged;
    var m, kept := Migrated(p), p.cache + p.recycling;
    MigrationFlat(p);
    if m.cache == [] {
      assert m.cache + m.recycling == m.recycling;
    } else {
      assert (m.cache + m.recycling)[0] == m.cache[0];
      assert (m.cache + m.recycling)[1..] == m.cache[1..] + m.recycling;
    }
  }

  lemma MigrationFlat(p: Pool)
    requires Aged(p)
    ensures var m := Migrated(p);
      && m.cache + m.recycling == p.cache + p.recycling && m.loop == p.loop && m.created == p.created
      && (m.cache == [] <==> p.cache == [] && forall e :: e in p.recycling ==> e.epoch >= p.loop)
  {
    hide Expired;
    if p.cache == [] {
      NoneExpired(p.recycling, p.loop);
      Cut(p.recycling, Expired(p.recycling, p.loop));
    }
  }

  lemma Cut(s: seq<Entry>, k: nat)
    requires k <= |s|
    ensures s[..k] + s[k..] == [] + s && (s[..k] == [] <==> k == 0)
  {
  }

  lemma NoneExpired(s: seq<Entry>, loop: int)
    requires forall i, j :: 0 <= i < j < |s| ==> s[i].epoch <= s[j].epoch
    ensures Expired(s, loop) == 0 <==> forall e :: e in s ==> e.epoch >= loop
  {
    hide Expired;
    if Expired(s, loop) == 0 {
      forall e | e in s
        ensures e.epoch >= loop
      {
        var i :| 0 <= i < |s| && s[i] == e;
      }
    } else {
      assert s[0] in s;
    }
  }

  lemma GetFromCache(w: World)
    requires Partition(w) && w.pool.cache != []
    ensures Ids(w.pool.cache) == multiset{w.pool.cache[0].conn} + Ids(w.pool.cache[1..])
    ensures w.pool.cache[0].conn !in w.live
  {
    var c := w.pool.cache[0].conn;
    assert multiset(Below(w.pool.created))[c] <= 1;
  }

  lemma RecycleKeeps(w: World, c: nat)
    requires Inv(w) && c in w.live
    ensures Inv(Step(w, Recycle(c)))
  {
    hide Ids;
    IdsAppend(w.pool.recycling, Entry(c, w.pool.loop));
    assert w.live == w.live - multiset{c} + multiset{c};
  }

  /** Over every run the three places stay disjoint, nothing is lost and ages
      stay in order. */
  lemma {:induction false} InvAlways(ops: seq<Op>)
    requires AllAllowed(Start, ops)
    ensures Inv(After(Start, ops))
  {
    if ops != [] {
      var n := |ops| - 1;
      var before := ops[..n];
      assert forall k :: 0 <= k < n ==> ops[..k] == before[..k];
      InvAlways(before);
      var w := After(Start, before);
      match ops[n]
      case Get => GetKeeps(w);
      case Recycle(c) => RecycleKeeps(w, c);
      case Tick =>
    }
  }

  /** How many more objects are kept or handed out than were created. */
  ghost function Surplus(w: World): int
  {
    |w.pool.cache| + |w.pool.recycling| + |w.live| - w.pool.created
  }

  lemma {:induction false} IdsCount(s: seq<Entry>)
    ensures |Ids(s)| == |s|
  {
    if s != [] {
      IdsCount(s[1..]);
    }
  }

  lemma {:induction false} BelowCount(n: nat)
    ensures |Below(n)| == n
  {
    if n > 0 {
      BelowCount(n - 1);
    }
  }

  lemma SurplusStep(w: World, op: Op)
    ensures Surplus(Step(w, op)) == Surplus(w) + if Allowed(w, op) then 0 else 1
  {
    hide Expired;
  }

  lemma AllowedLast(w: World, ops: seq<Op>)
    requires ops != []
    ensures var n := |ops| - 1;
      AllAllowed(w, ops) <==> AllAllowed(w, ops[..n]) && Allowed(After(w, ops[..n]), ops[n])
  {
    hide After, Allowed;
    var n := |ops| - 1;
    var before := ops[..n];
    assert forall k :: 0 <= k < n ==> ops[..k] == before[..k] && ops[k] == before[k];
  }

  /** Recycling an object that is not live leaves one object in two places for
      good. */
  lemma {:induction false} SurplusCounts(ops: seq<Op>)
    ensures Surplus(After(Start, ops)) >= 0
    ensures Surplus(After(Start, ops)) == 0 <==> AllAllowed(Start, ops)
  {
    if ops != [] {
      hide Surplus, Step, AllAllowed, Allowed;
      var n := |ops| - 1;
      var before := ops[..n];
      SurplusCounts(before);
      SurplusStep(After(Start, before), ops[n]);
      AllowedLast(Start, ops);
    }
  }

  /** One object more is kept than is there. */
  lemma RecycledTwice(p: Pool, live: multiset<nat>, c: nat)
    requires Partition(World(p, live))
    ensures !Partition(World(AfterRecycle(p, c), live))
  {
    hide Ids;
    IdsAppend(p.recycling, Entry(c, p.loop));
    var all := Ids(p.cache) + Ids(p.recycling) + live;
    assert (all + multiset{c})[c] == all[c] + 1;
    assert Ids(p.cache) + (Ids(p.recycling) + multiset{c}) + live == all + multiset{c};
  }

  /** Over every run, the objects live, cached and recycling are all objects ever
      created, each once, exactly when only live objects were recycled. */
  lemma PartitionExactly(ops: seq<Op>)
    ensures Partition(After(Start, ops)) <==> AllAllowed(Start, ops)
  {
    SurplusCounts(ops);
    if AllAllowed(Start, ops) {
      InvAlways(ops);
    }
    if Partition(After(Start, ops)) {
      var w := After(Start, ops);
      IdsCount(w.pool.cache);
      IdsCount(w.pool.recycling);
      BelowCount(w.pool.created);
      assert |multiset(Below(w.pool.created))| == w.pool.created;
    }
  }

  // ---- No object returns in the epoch it was recycled in ----

  /** `c` waits among the recycling objects, recycled in the current epoch. */
  ghost predicate Waiting(w: World, c: nat)
  {
    Entry(c, w.pool.loop) in w.pool.recycling
  }

  /** While the epoch lasts, a waiting object keeps waiting and is not handed
      out. */
  lemma WaitingStays(w: World, op: Op, c: nat)
    requires Inv(w) && Waiting(w, c) && Allowed(w, op) && op != Tick
    ensures Waiting(Step(w, op), c)
    ensures op == Get ==> Gotten(w.pool) != c
  {
    if op == Get {
      var p := w.pool;
      var i :| 0 <= i < |p.recycling| && p.recycling[i] == Entry(c, p.loop);
      IdsHas(p.recycling, i);
      if p.cache == [] {
        MigrationExact(p, i);
        MigrationKeepsIds(p);
        var q := Migrated(p);
        IdsHas(q.recycling, i - |q.cache|);
      }
      var q := Migrated(p);
      assert c in Ids(q.recycling) && Partition(World(q, w.live)) by {
        MigrationKeepsIds(p);
      }
      NotTwice(World(q, w.live), c);
    } else {
      assert w.pool.recycling <= AfterRecycle(w.pool, op.conn).recycling;
    }
  }

  lemma NotTwice(w: World, c: nat)
    requires Partition(w) && c in Ids(w.pool.recycling)
    ensures c < w.pool.created
    ensures w.pool.cache != [] ==> w.pool.cache[0].conn != c
  {
    hide Ids;
    assert multiset(Below(w.pool.created))[c] <= 1;
    assert c in multiset(Below(w.pool.created));
    if w.pool.cache != [] {
      IdsHas(w.pool.cache, 0);
    }
  }

  lemma {:induction false} WaitingThroughout(w: World, ops: seq<Op>, c: nat)
    requires Inv(w) && Waiting(w, c) && AllAllowed(w, ops) && Tick !in ops
    ensures Inv(After(w, ops)) && Waiting(After(w, ops), c)
  {
    if ops != [] {
      var n := |ops| - 1;
      var before := ops[..n];
      assert forall k :: 0 <= k < n ==> ops[..k] == before[..k];
      WaitingThroughout(w, before, c);
      var v := After(w, before);
      WaitingStays(v, ops[n], c);
      match ops[n]
      case Get => GetKeeps(v);
      case Recycle(d) => RecycleKeeps(v, d);
    }
  }

  /** In every run, between recycling an object and handing it out again the
      event loop has gone round. */
  lemma NoReuseWithinEpoch(before: seq<Op>, c: nat, between: seq<Op>)
    requires AllAllowed(Start, before)
    requires c in After(Start, before).live
    requires AllAllowed(Step(After(Start, before), Recycle(c)), between)
    requires Tick !in between
    ensures Gotten(After(Step(After(Start, before), Recycle(c)), between).pool) != c
  {
    InvAlways(before);
    var w := After(Start, before);
    RecycleKeeps(w, c);
    var v := Step(w, Recycle(c));
    assert v.pool.recycling[|w.pool.recycling|] == Entry(c, v.pool.loop);
    WaitingThroughout(v, between, c);
    WaitingStays(After(v, between), Get, c);
  }

  // ---- Exactly when an object may come back in its own epoch ----

  function GetMany(p: Pool, n: nat): Pool
    decreases n
  {
    if n == 0 then p else GetMany(AfterGet(p), n - 1)
  }

  /** No entry of `c` is left from an earlier epoch. */
  ghost predicate Unlisted(p: Pool, c: nat)
  {
    && (forall e :: e in p.cache ==> e.conn != c)
    && (forall e :: e in p.recycling && e.conn == c ==> e.epoch >= p.loop)
    && c < p.created
  }

  lemma UnlistedGet(p: Pool, c: nat)
    requires Unlisted(p, c)
    ensures Gotten(p) != c && Unlisted(AfterGet(p), c)
  {
  }

  lemma {:induction false} UnlistedGets(p: Pool, c: nat, n: nat)
    requires Unlisted(p, c)
    ensures Gotten(GetMany(p, n)) != c
    decreases n
  {
    UnlistedGet(p, c);
    if n > 0 {
      UnlistedGets(AfterGet(p), c, n - 1);
    }
  }

  lemma {:induction false} CachedComes(p: Pool, i: nat)
    requires i < |p.cache|
    ensures Gotten(GetMany(p, i)) == p.cache[i].conn
    decreases i
  {
    if i > 0 {
      assert AfterGet(p) == p.(cache := p.cache[1..]);
      CachedComes(AfterGet(p), i - 1);
    }
  }

  lemma {:induction false} CacheDrains(p: Pool, n: nat)
    ensures GetMany(p, |p.cache| + n) == GetMany(p.(cache := []), n)
    decreases |p.cache|
  {
    if p.cache != [] {
      assert AfterGet(p) == p.(cache := p.cache[1..]);
      CacheDrains(AfterGet(p), n);
    }
  }

  lemma MigratesFirst(p: Pool, n: nat)
    requires p.cache == [] && Expired(p.recycling, p.loop) > 0
    ensures Gotten(GetMany(p, n)) == Gotten(GetMany(Migrated(p), n))
  {
  }

  /** Recycled now, the object stays away for the rest of the epoch, whatever is
      taken, exactly when no entry of it was left from an earlier epoch: when it
      was not recycled twice. */
  lemma ReuseExactly(p: Pool, c: nat)
    requires Aged(p) && c < p.created
    ensures (forall n: nat :: Gotten(GetMany(AfterRecycle(p, c), n)) != c) <==> Unlisted(p, c)
  {
    hide Gotten, GetMany;
    var q := AfterRecycle(p, c);
    if Unlisted(p, c) {
      forall n: nat
        ensures Gotten(GetMany(q, n)) != c
      {
        UnlistedGets(q, c, n);
      }
    } else {
      ReusedAt(q, c);
    }
  }

  lemma ReusedAt(q: Pool, c: nat)
    requires Aged(q) && !Unlisted(q, c) && c < q.created
    ensures exists n: nat :: Gotten(GetMany(q, n)) == c
  {
    hide Gotten, GetMany, Expired, Migrated;
    if i :| 0 <= i < |q.cache| && q.cache[i].conn == c {
      CachedComes(q, i);
    } else {
      var e :| e in q.recycling && e.conn == c && e.epoch < q.loop;
      var i :| 0 <= i < |q.recycling| && q.recycling[i] == e;
      ExpiredComes(q, i);
      assert Gotten(GetMany(q, |q.cache| + i)) == c;
    }
  }

  lemma ExpiredComes(q: Pool, i: nat)
    requires Aged(q) && i < |q.recycling| && q.recycling[i].epoch < q.loop
    ensures Gotten(GetMany(q, |q.cache| + i)) == q.recycling[i].conn
  {
    hide Gotten, GetMany;
    var r := q.(cache := []);
    CacheDrains(q, i);
    MigrationExact(r, i);
    MigratesFirst(r, i);
    CachedComes(Migrated(r), i);
  }
}
