/** The connection cache as built: nodes moving between three intrusive lists. */
module ConnectionCache {
  import opened LinkedList
  import opened CachePolicy

  /** The nodes carry these entries, in order. */
  ghost predicate Holds(nodes: seq<Node>, entries: seq<Entry>)
    reads nodes`conn, nodes`epoch
  {
    && |nodes| == |entries|
    && forall i :: 0 <= i < |nodes| ==> Entry(nodes[i].conn, nodes[i].epoch) == entries[i]
  }

  class Cache {
    const idle: List
    const cache: List
    const recycling: List
    var loopCount: int
    var created: nat
    ghost var pool: Pool

    ghost function Nodes(): set<Node>
      reads idle, cache, recycling
    {
      idle.Nodes() + cache.Nodes() + recycling.Nodes()
    }

    /** Three well-formed lists that share no node. */
    ghost predicate Lists()
      reads idle, cache, recycling, Nodes()
    {
      && idle != cache && cache != recycling && idle != recycling
      && idle.Nodes() !! cache.Nodes() && cache.Nodes() !! recycling.Nodes()
      && idle.Nodes() !! recycling.Nodes()
      && idle.Valid() && cache.Valid() && recycling.Valid()
    }

    ghost predicate Valid()
      reads this, idle, cache, recycling, Nodes()
    {
      && idle != cache && cache != recycling && idle != recycling
      && Lists()
      && Holds(cache.elems, pool.cache)
      && Holds(recycling.elems, pool.recycling)
      && pool.loop == loopCount && pool.created == created
    }

    constructor ()
      ensures Valid() && pool == Start.pool && fresh(Nodes() + {cache.head})
      ensures fresh(idle) && fresh(cache) && fresh(recycling)
    {
      idle := new List();
      cache := new List();
      recycling := new List();
      loopCount, created := 0, 0;
      pool := Start.pool;
    }

    /** A node for a new entry: an idle one, or a new one. */
    method NodeFor(conn: nat) returns (node: Node)
      requires Lists()
      modifies idle, idle.Nodes()`conn, idle.Nodes()`epoch, Nodes()`next, Nodes()`prev
      ensures Lists() && node !in Nodes() && node.conn == conn && node.epoch == loopCount
      ensures Nodes() == old(Nodes()) - {node}
      ensures node in old(Nodes()) || fresh(node)
      ensures forall n :: n in old(Nodes()) && n != node ==>
        n.conn == old(n.conn) && n.epoch == old(n.epoch)
    {
      hide List.Valid, Linked, Distinct;
      var first := idle.First();
      if first != null {
        node := first;
        idle.Remove(node, 0);
      } else {
        node := new Node();
      }
      node.conn, node.epoch := conn, loopCount;
    }

    method Append(node: Node)
      requires Lists() && node !in Nodes()
      modifies recycling, Nodes()`next, Nodes()`prev, node`next, node`prev
      ensures Lists() && recycling.elems == old(recycling.elems) + [node]
      ensures Nodes() == old(Nodes()) + {node}
    {
      hide List.Valid, Linked, Distinct;
      recycling.AddLast(node);
    }

    /** A node for the object joins the recycling list; the entries already there
        and in the cache stay. */
    method Enlist(conn: nat, ghost cached: seq<Entry>, ghost waiting: seq<Entry>)
      requires idle != cache && cache != recycling && idle != recycling
      requires Lists() && Holds(cache.elems, cached) && Holds(recycling.elems, waiting)
      modifies idle, recycling, Nodes()
      ensures Lists() && Holds(cache.elems, cached)
      ensures Holds(recycling.elems, waiting + [Entry(conn, loopCount)])
      ensures old(Nodes()) <= Nodes() && fresh(Nodes() - old(Nodes()))
    {
      hide Lists;
      var node := NodeFor(conn);
      assert Holds(cache.elems, cached) && Holds(recycling.elems, waiting);
      Append(node);
    }

    /** recycle: the object waits, marked with the current loop count. */
    method Recycle(conn: nat)
      requires Valid()
      modifies this`pool, idle, recycling, Nodes()
      ensures Valid() && pool == AfterRecycle(old(pool), conn)
      ensures old(Nodes()) <= Nodes() && fresh(Nodes() - old(Nodes()))
    {
      hide Lists, Holds;
      Enlist(conn, pool.cache, pool.recycling);
      pool := AfterRecycle(pool, conn);
    }

    method DetachFirst() returns (node: Node)
      requires Lists() && cache.elems != []
      modifies cache, Nodes()`next, Nodes()`prev
      ensures Lists() && node == old(cache.elems)[0] && cache.elems == old(cache.elems)[1..]
      ensures node !in Nodes() && Nodes() == old(Nodes()) - {node}
    {
      hide List.Valid, Linked, Distinct;
      node := cache.First();
      cache.Remove(node, 0);
    }

    method Retire(node: Node)
      requires Lists() && node !in Nodes()
      modifies idle, Nodes()`next, Nodes()`prev, node`next, node`prev
      ensures Lists() && Nodes() == old(Nodes()) + {node}
    {
      hide List.Valid, Linked, Distinct;
      idle.Add(node);
    }

    /** The first cached node gives up its object and becomes idle; the other
        entries stay. */
    method Release(ghost cached: seq<Entry>, ghost waiting: seq<Entry>) returns (conn: nat)
      requires idle != cache && cache != recycling && idle != recycling
      requires Lists() && Holds(cache.elems, cached) && Holds(recycling.elems, waiting) && cached != []
      modifies idle, cache, Nodes()
      ensures Lists() && conn == cached[0].conn
      ensures Holds(cache.elems, cached[1..]) && Holds(recycling.elems, waiting)
      ensures Nodes() == old(Nodes())
    {
      hide Lists;
      var node := DetachFirst();
      assert Holds(cache.elems, cached[1..]) && Holds(recycling.elems, waiting);
      conn := node.conn;
      node.conn := 0;
      assert Holds(cache.elems, cached[1..]) && Holds(recycling.elems, waiting);
      Retire(node);
    }

    /** Hands out the first cached object; its node becomes idle. */
    method TakeFirst() returns (conn: nat)
      requires Valid() && pool.cache != []
      modifies this`pool, idle, cache, Nodes()
      ensures Valid() && conn == old(pool).cache[0].conn
      ensures pool == old(pool).(cache := old(pool).cache[1..])
      ensures Nodes() == old(Nodes())
    {
      hide Lists, Holds;
      conn := Release(pool.cache, pool.recycling);
      pool := pool.(cache := pool.cache[1..]);
    }

    /** One turn of the migration loop: moves the first recycling node if it
        was recycled before the current loop. */
    method MoveFirst() returns (moved: bool)
      requires Lists()
      modifies cache, recycling, Nodes()`next, Nodes()`prev
      ensures Lists() && Nodes() == old(Nodes())
      ensures moved <==> old(recycling.elems) != [] && old(recycling.elems)[0].epoch < loopCount
      ensures if moved
        then cache.elems == old(cache.elems) + [old(recycling.elems)[0]]
          && recycling.elems == old(recycling.elems)[1..]
        else cache.elems == old(cache.elems) && recycling.elems == old(recycling.elems)
    {
      hide List.Valid, Linked, Distinct;
      var node := recycling.First();
      if node == null || loopCount <= node.epoch {
        return false;
      }
      recycling.Remove(node, 0);
      cache.AddLast(node);
      moved := true;
    }

    /** The migration loop: moves nodes until one is not expired. */
    method MoveExpired(ghost start: seq<Entry>) returns (moved: bool, ghost j: nat)
      requires Lists() && cache.elems == [] && Holds(recycling.elems, start)
      modifies cache, recycling, Nodes()`next, Nodes()`prev
      ensures Lists() && Nodes() == old(Nodes())
      ensures j == Expired(start, loopCount) && (moved <==> j > 0)
      ensures Holds(cache.elems, start[..j]) && Holds(recycling.elems, start[j..])
    {
      hide Lists, Nodes, Expired;
      moved, j := false, 0;
      var more := true;
      while more
        invariant j <= |start| && (moved <==> j > 0)
        invariant Lists() && Nodes() == old(Nodes())
        invariant Holds(cache.elems, start[..j]) && Holds(recycling.elems, start[j..])
        invariant forall i :: 0 <= i < j ==> start[i].epoch < loopCount
        invariant !more && j < |start| ==> loopCount <= start[j].epoch
        decreases |start| - j, more
      {
        more := MoveFirst();
        if more {
          moved := true;
          j := j + 1;
        }
      }
      ExpiredIs(start, loopCount, j);
    }

    method Migrate() returns (moved: bool)
      requires Valid() && pool.cache == []
      modifies this`pool, cache, recycling, Nodes()`next, Nodes()`prev
      ensures Valid() && pool == Migrated(old(pool))
      ensures moved <==> pool.cache != []
      ensures Nodes() == old(Nodes())
    {
      hide Lists, Expired;
      ghost var j;
      ghost var start := pool.recycling;
      moved, j := MoveExpired(start);
      pool := pool.(cache := start[..j], recycling := start[j..]);
    }

    /** get: a cached object, else one that expired, else a new one. */
    method Get() returns (conn: nat)
      requires Valid()
      modifies this, idle, cache, recycling, Nodes()
      ensures Valid() && conn == Gotten(old(pool)) && pool == AfterGet(old(pool))
      ensures Nodes() == old(Nodes())
    {
      hide List.Valid, Linked, Distinct;
      var node := cache.First();
      if node != null {
        conn := TakeFirst();
      } else {
        var moved := Migrate();
        if moved {
          conn := TakeFirst();
        } else {
          conn := created;
          created := created + 1;
          pool := pool.(created := created);
        }
      }
    }

    /** The event loop goes round. */
    method Tick()
      requires Valid()
      modifies this`loopCount, this`pool
      ensures Valid() && pool == old(pool).(loop := old(pool).loop + 1)
    {
      loopCount := loopCount + 1;
      pool := pool.(loop := loopCount);
    }
  }
}
