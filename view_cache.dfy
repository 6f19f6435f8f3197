/**
 * `GrThreadSafeUniquelyKeyedProxyViewCache`: a table from unique keys to surface proxy views,
 * shared between recording threads. A thread that does not find a view makes one and adds
 * it; when another thread added one first, the add returns the earlier view, so the first add
 * wins. Entries are allocated once and recycled through a free list linked by `next`.
 *
 * The spin lock is not modelled: every operation runs alone, as the lock makes it. The hash
 * table is a map from each entry's key to the entry.
 */
module ViewCache {

  /** `GrUniqueKey`: a reset key is `NoKey`. */
  datatype UniqueKey = NoKey | Key(id: int)

  /** `GrSurfaceProxyView`: a reset or default view is `EmptyView`. */
  datatype ProxyView = EmptyView | View(proxy: int)

  /** `Entry`: its key and view, and the next entry on the free list (-1 for none). */
  datatype Entry = Entry(key: UniqueKey, view: ProxyView, next: int)

  /** An entry as the free list keeps it: key and view reset. */
  predicate IsReset(e: Entry) {
    e.key == NoKey && e.view == EmptyView
  }

  /** Each key's entry is in the arena, holds that key, is unlinked and is not on the free list. */
  ghost predicate TableOk(arena: seq<Entry>, table: map<UniqueKey, nat>, free: seq<nat>) {
    forall k :: k in table ==>
      table[k] < |arena| && arena[table[k]].key == k && arena[table[k]].next == -1 && table[k] !in free
  }

  /** The free list: distinct reset entries, linked head first through `next` from `head` to -1. */
  ghost predicate FreeListOk(arena: seq<Entry>, free: seq<nat>, head: int) {
    (forall i :: 0 <= i < |free| ==> free[i] < |arena| && IsReset(arena[free[i]])) &&
    (forall i, j :: 0 <= i < j < |free| ==> free[i] != free[j]) &&
    (forall i :: 0 <= i < |free| - 1 ==> arena[free[i]].next == free[i + 1]) &&
    (if |free| == 0 then head == -1 else head == free[0] && arena[free[|free| - 1]].next == -1)
  }

  /** The view in each key's entry. */
  ghost function ViewsOf(arena: seq<Entry>, table: map<UniqueKey, nat>): map<UniqueKey, ProxyView>
    requires forall k :: k in table ==> table[k] < |arena|
  {
    map k | k in table :: arena[table[k]].view
  }

  /** Changing entries that no key points to leaves the views unchanged. */
  lemma {:induction false} SameViews(a1: seq<Entry>, a2: seq<Entry>, table: map<UniqueKey, nat>)
    requires forall k :: k in table ==> table[k] < |a1| && table[k] < |a2| && a1[table[k]] == a2[table[k]]
    ensures ViewsOf(a1, table) == ViewsOf(a2, table)
  {
  }

  /** Taking the free list's head and filling it in keeps the table and the rest of the list intact. */
  lemma {:induction false} PopFreeHead(arena: seq<Entry>, table: map<UniqueKey, nat>, free: seq<nat>, head: int, fill: Entry)
    requires TableOk(arena, table, free) && FreeListOk(arena, free, head) && |free| > 0 && fill.next == -1
    ensures var e := free[0];
      var arena' := arena[e := fill];
      TableOk(arena', table, free[1..]) && FreeListOk(arena', free[1..], arena[e].next) &&
      e !in free[1..] && (forall k :: k in table ==> table[k] != e && arena'[table[k]] == arena[table[k]])
  {
    var e := free[0];
    var arena' := arena[e := fill];
    forall i | 0 <= i < |free[1..]| ensures free[1..][i] != e {
      assert free[1..][i] == free[i + 1];
    }
  }

  /** A new entry at the arena's end is in neither the table nor the free list. */
  lemma {:induction false} AppendEntry(arena: seq<Entry>, table: map<UniqueKey, nat>, free: seq<nat>, head: int, fill: Entry)
    requires TableOk(arena, table, free) && FreeListOk(arena, free, head)
    ensures var arena' := arena + [fill];
      TableOk(arena', table, free) && FreeListOk(arena', free, head) && |arena| !in free &&
      (forall k :: k in table ==> table[k] != |arena| && arena'[table[k]] == arena[table[k]])
  {
  }

  /** Putting a detached entry holding the key under that key keeps the table consistent and adds one view. */
  lemma {:induction false} InsertEntry(arena: seq<Entry>, table: map<UniqueKey, nat>, free: seq<nat>, key: UniqueKey, e: nat)
    requires TableOk(arena, table, free) && key !in table
    requires e < |arena| && arena[e].key == key && arena[e].next == -1 && e !in free
    ensures TableOk(arena, table[key := e], free)
    ensures ViewsOf(arena, table[key := e]) == ViewsOf(arena, table)[key := arena[e].view]
  {
  }

  /**
   * The cache. Entries live in `fEntryAllocator`, an arena that only grows; an `Entry*` is an
   * index into `arena`.
   */
  class ViewCache {
    /** `fEntryAllocator`'s entries, in allocation order. */
    var arena: seq<Entry>
    /** `fUniquelyKeyedProxyViews`: the entry holding each key. */
    var table: map<UniqueKey, nat>
    /** `fFreeEntryList`: the free list's head, or -1. */
    var freeList: int
    /** The free list, head first. */
    ghost var free: seq<nat>

    ghost predicate TableInArena()
      reads this
    {
      forall k :: k in table ==> table[k] < |arena|
    }

    /**
     * The table holds each entry under its own key, and the free list links distinct reset
     * entries, none of them in the table, through `next`.
     */
    ghost predicate Valid()
      reads this
    {
      TableOk(arena, table, free) && FreeListOk(arena, free, freeList)
    }

    /** An entry neither in the table nor on the free list: one being handed out or taken back. */
    ghost predicate Detached(e: nat)
      reads this
    {
      e < |arena| && e !in free && forall k :: k in table ==> table[k] != e
    }

    /** What the cache holds: the view stored under each key. */
    ghost function Contents(): map<UniqueKey, ProxyView>
      reads this
      requires TableInArena()
    {
      ViewsOf(arena, table)
    }

    constructor()
      ensures Valid() && Contents() == map[] && arena == [] && free == []
    {
      arena := [];
      table := map[];
      freeList := -1;
      free := [];
    }

    /**
     * `getEntry`: takes the head of the free list, unlinks it and stores the key and view in
     * it, or allocates a new entry when the list is empty. The entry is handed out detached.
     */
    method GetEntry(key: UniqueKey, view: ProxyView) returns (e: nat)
      requires Valid()
      modifies this
      ensures Valid() && Detached(e) && arena[e] == Entry(key, view, -1)
      ensures table == old(table) && forall k :: k in table ==> arena[table[k]] == old(arena)[table[k]]
      ensures |old(free)| > 0 ==> e == old(free)[0] && free == old(free)[1..] && |arena| == |old(arena)|
      ensures |old(free)| == 0 ==> e == |old(arena)| && free == [] && |arena| == |old(arena)| + 1
    {
      if freeList != -1 {
        e := freeList;
        PopFreeHead(arena, table, free, freeList, Entry(key, view, -1));
        freeList := arena[e].next;
        arena := arena[e := Entry(key, view, -1)];
        free := free[1..];
      } else {
        e := |arena|;
        AppendEntry(arena, table, free, freeList, Entry(key, view, -1));
        arena := arena + [Entry(key, view, -1)];
      }
    }

    /** `recycleEntry`: resets a detached entry's key and view and pushes it on the free list. */
    method RecycleEntry(dead: nat)
      requires Valid() && Detached(dead)
      modifies this
      ensures Valid()
      ensures free == [dead] + old(free) && arena[dead] == Entry(NoKey, EmptyView, old(freeList))
      ensures table == old(table) && |arena| == |old(arena)|
      ensures forall k :: k in table ==> arena[table[k]] == old(arena)[table[k]]
    {
      arena := arena[dead := Entry(NoKey, EmptyView, freeList)];
      freeList := dead;
      free := [dead] + free;
    }

    /** `numEntries` and `count`: the number of keys in the table. */
    method Count() returns (n: nat)
      requires Valid()
      ensures n == |Contents()|
    {
      n := |table|;
      assert Contents().Keys == table.Keys;
    }

    /** `find`: the view stored under the key, or the empty view when there is none. */
    method Find(key: UniqueKey) returns (v: ProxyView)
      requires Valid()
      ensures key in Contents() ==> v == Contents()[key]
      ensures key !in Contents() ==> v == EmptyView
    {
      if key in table {
        v := arena[table[key]].view;
      } else {
        v := EmptyView;
      }
    }

    /**
     * `add` (and `internalAdd`): stores the view under the key only when the key is absent, and
     * returns the view now stored under it, so a later add of the same key gets the first view.
     */
    method Add(key: UniqueKey, view: ProxyView) returns (v: ProxyView)
      requires Valid()
      modifies this
      ensures Valid()
      ensures key in old(Contents()) ==> Contents() == old(Contents()) && v == old(Contents())[key]
      ensures key !in old(Contents()) ==> Contents() == old(Contents())[key := view] && v == view
      ensures key in Contents() && v == Contents()[key]
      ensures |old(Contents())| <= |Contents()| <= |old(Contents())| + 1
    {
      if key in table {
        v := arena[table[key]].view;
      } else {
        ghost var c0 := Contents();
        InsertNew(key, view);
        v := view;
        assert |c0[key := view]| == |c0| + 1;
      }
    }

    /** `internalAdd` for an absent key: a fresh or recycled entry is put in the table under the key. */
    method InsertNew(key: UniqueKey, view: ProxyView)
      requires Valid() && key !in table
      modifies this
      ensures Valid() && TableInArena() && Contents() == old(Contents())[key := view]
    {
      ghost var a0 := arena;
      var e := GetEntry(key, view);
      SameViews(a0, arena, table);
      InsertEntry(arena, table, free, key, e);
      table := table[key := e];
    }

    /** `dropAllRefs`: every entry in the table goes back on the free list and the table is left empty. */
    method DropAllRefs()
      requires Valid()
      modifies this
      ensures Valid() && Contents() == map[]
      ensures forall k :: k in old(table) ==> old(table)[k] in free
      ensures forall e :: e in old(free) ==> e in free
      ensures |arena| == |old(arena)|
    {
      var entries := set k | k in table :: table[k];
      ghost var all := entries;
      table := map[];
      while entries != {}
        invariant Valid() && table == map[] && entries <= all
        invariant forall e :: e in entries ==> Detached(e)
        invariant forall e :: e in all - entries ==> e in free
        invariant forall e :: e in old(free) ==> e in free
        invariant |arena| == |old(arena)|
        decreases |entries|
      {
        var e :| e in entries;
        RecycleEntry(e);
        entries := entries - {e};
      }
      forall k | k in old(table) ensures old(table)[k] in free {
        assert old(table)[k] in all;
      }
    }

    /** `dropAllUniqueRefs`: visits every entry and does nothing with it. */
    method DropAllUniqueRefs()
      requires Valid()
      ensures Valid() && Contents() == old(Contents())
    {
    }
  }

  /** The first add of a key wins: a second add of the same key, with any view, returns the first view. */
  method FirstAddWins(cache: ViewCache, key: UniqueKey, first: ProxyView, second: ProxyView)
      returns (v1: ProxyView, v2: ProxyView)
    requires cache.Valid() && key !in cache.Contents()
    modifies cache
    ensures v1 == first && v2 == first
    ensures cache.Valid() && |cache.Contents()| == |old(cache.Contents())| + 1
  {
    v1 := cache.Add(key, first);
    v2 := cache.Add(key, second);
  }
}
