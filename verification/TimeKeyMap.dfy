// The two-layer state table of a windowed operator: values not yet written to the backing
// store sit in a buffer over the persisted ones. The table stands for the merged map. What has
// been written stays in the store, where a restart finds it.
module TimeKeyMaps {
  import opened Messages
  import opened Extremes

  type Layer<V> = map<int, map<int, V>>

  function Slot<V>(layer: Layer<V>, t: int): map<int, V> {
    if t in layer then layer[t] else map[]
  }

  /** The merged map after writing v at (t, k). */
  ghost function Put<V>(m: Layer<V>, t: int, k: int, v: V): Layer<V> {
    m[t := Slot(m, t)[k := v]]
  }

  /** The meaning of two layers: a buffered value wins over the persisted one. */
  ghost function MergeLayers<V>(persisted: Layer<V>, buffered: Layer<V>): Layer<V> {
    map t | t in persisted.Keys + buffered.Keys :: Slot(persisted, t) + Slot(buffered, t)
  }

  /** The part of the store that is still valid. */
  ghost function Restored<V>(store: Layer<V>, minValid: int): Layer<V> {
    map t | t in store && minValid <= t :: store[t]
  }

  /** The store has every persisted value; all else in it is older than the bound and evicted. */
  ghost predicate BackedBy<V(!new)>(persisted: Layer<V>, buffered: Layer<V>, store: Layer<V>, bound: int) {
    && (forall t :: t in persisted ==> t in store && store[t] == persisted[t])
    && (forall t :: t in store && t !in persisted ==> t < bound && t !in buffered)
  }

  lemma {:induction false} FlushBacked<V(!new)>(persisted: Layer<V>, buffered: Layer<V>, store: Layer<V>, t: int,
                                                bound: int)
    requires t in buffered && BackedBy(persisted, buffered, store, bound)
    ensures BackedBy(persisted[t := Slot(persisted, t) + buffered[t]], buffered - {t},
                     store[t := Slot(store, t) + buffered[t]], bound)
  {
    assert t in store ==> t in persisted && store[t] == persisted[t];
    assert Slot(store, t) == Slot(persisted, t);
  }

  lemma MergePut<V>(persisted: Layer<V>, buffered: Layer<V>, t: int, k: int, v: V)
    ensures MergeLayers(persisted, buffered[t := Slot(buffered, t)[k := v]])
         == Put(MergeLayers(persisted, buffered), t, k, v)
  {
    var m, buffered' := MergeLayers(persisted, buffered), buffered[t := Slot(buffered, t)[k := v]];
    var left, right := MergeLayers(persisted, buffered'), Put(m, t, k, v);
    var p, b := Slot(persisted, t), Slot(buffered, t);
    MergeSlot(persisted, buffered, t);
    AddUpdate(p, b, k, v);
    forall x | x in left.Keys
      ensures x in right && left[x] == right[x]
    {
      if x != t {
        assert Slot(buffered', x) == Slot(buffered, x);
      }
    }
    assert left.Keys == right.Keys;
  }

  lemma MergeSlot<V>(persisted: Layer<V>, buffered: Layer<V>, t: int)
    ensures Slot(MergeLayers(persisted, buffered), t) == Slot(persisted, t) + Slot(buffered, t)
  {
    if t !in persisted && t !in buffered {
      var none: map<int, V> := map[];
      assert none + none == none;
    }
  }

  lemma MergeNothing<V>(persisted: Layer<V>)
    ensures MergeLayers(persisted, map[]) == persisted
  {
    var none: map<int, V> := map[];
    assert forall m: map<int, V> :: m + none == m;
  }

  lemma AddUpdate<V>(p: map<int, V>, b: map<int, V>, k: int, v: V)
    ensures p + b[k := v] == (p + b)[k := v]
  {
  }

  lemma PutSame<V>(m: Layer<V>, t: int, k: int, v: V)
    requires t in m && k in m[t] && m[t][k] == v
    ensures Put(m, t, k, v) == m
  {
    assert m[t][k := v] == m[t];
  }

  lemma MergeFlush<V>(persisted: Layer<V>, buffered: Layer<V>, t: int)
    requires t in buffered
    ensures MergeLayers(persisted[t := Slot(persisted, t) + buffered[t]], buffered - {t})
         == MergeLayers(persisted, buffered)
  {
    var flushed := Slot(persisted, t) + buffered[t];
    assert flushed + map[] == flushed;
  }

  class TimeKeyMap<V(==,!new)> {
    var persisted: Layer<V>
    var buffered: Layer<V>
    var store: Layer<V>

    constructor ()
      ensures Merged() == map[] && persisted == map[] && store == map[] && forall bound :: Backed(bound)
    {
      persisted, buffered, store := map[], map[], map[];
    }

    /** What a restart reads back: the stored values that are not older than the oldest valid time. */
    constructor FromCheckpoint(store: Layer<V>, minValid: int)
      ensures Merged() == Restored(store, minValid)
      ensures forall bound :: (forall t :: t in store && t < minValid ==> t < bound) ==> Backed(bound)
    {
      persisted, buffered := map t | t in store && minValid <= t :: store[t], map[];
      this.store := store;
      new;
      MergeNothing(persisted);
    }

    ghost predicate Backed(bound: int)
      reads this
    {
      BackedBy(persisted, buffered, store, bound)
    }

    function At(t: int): map<int, V>
      reads this
    {
      Slot(persisted, t) + Slot(buffered, t)
    }

    /** What the table means. */
    ghost function Merged(): Layer<V>
      reads this
    {
      MergeLayers(persisted, buffered)
    }

    method Get(t: int, k: int) returns (r: Option<V>)
      ensures r == if k in Slot(Merged(), t) then Some(Slot(Merged(), t)[k]) else None
    {
      if t in buffered && k in buffered[t] {
        r := Some(buffered[t][k]);
      } else if t in persisted && k in persisted[t] {
        r := Some(persisted[t][k]);
      } else {
        r := None;
      }
    }

    /** The persisted value is v already, and the buffer holds something else. */
    ghost predicate Stale(t: int, k: int, v: V)
      reads this
    {
      && t in persisted && k in persisted[t] && persisted[t][k] == v
      && t in buffered && k in buffered[t] && buffered[t][k] != v
    }

    /**
     * A value equal to the persisted one is not buffered. The insertion therefore writes v at
     * (t, k) if and only if the buffer does not hold another value there; otherwise it is lost.
     */
    method Insert(t: int, k: int, v: V)
      modifies this
      ensures Merged() == (if old(Stale(t, k, v)) then old(Merged()) else Put(old(Merged()), t, k, v))
      ensures Merged() == Put(old(Merged()), t, k, v) <==> !old(Stale(t, k, v))
      ensures persisted == old(persisted) && store == old(store)
      ensures forall bound :: bound <= t && old(Backed(bound)) ==> Backed(bound)
    {
      ghost var before := Merged();
      if t in persisted && k in persisted[t] && persisted[t][k] == v {
        if Stale(t, k, v) {
          assert Put(before, t, k, v)[t][k] == v && before[t][k] != v;
        } else {
          PutSame(before, t, k, v);
        }
        return;
      }
      MergePut(persisted, buffered, t, k, v);
      buffered := buffered[t := Slot(buffered, t)[k := v]];
    }

    method GetAllForTime(t: int) returns (r: map<int, V>)
      ensures r == Slot(Merged(), t)
    {
      r := At(t);
    }

    method GetMinTime() returns (r: Option<int>)
      ensures r.None? <==> Merged() == map[]
      ensures r.Some? ==> r.value in Merged() && forall t :: t in Merged() ==> r.value <= t
    {
      var times := persisted.Keys + buffered.Keys;
      assert times == Merged().Keys;
      if times == {} {
        r := None;
      } else {
        var m := LeastOf(times);
        r := Some(m);
      }
    }

    method EvictForTimestamp(t: int) returns (r: map<int, V>)
      modifies this
      ensures r == Slot(old(Merged()), t) && Merged() == old(Merged()) - {t} && store == old(store)
      ensures forall bound :: t < bound && old(Backed(bound)) ==> Backed(bound)
    {
      r := At(t);
      persisted, buffered := persisted - {t}, buffered - {t};
      assert Merged() == old(Merged()) - {t};
    }

    /** Moves the buffered values up to the watermark into the store; the table means the same. */
    method FlushAtWatermark(watermark: int)
      modifies this
      ensures Merged() == old(Merged())
      ensures forall t :: t in buffered ==> watermark < t && t in old(buffered)
      ensures forall bound :: old(Backed(bound)) ==> Backed(bound)
      ensures forall t :: t in store ==> t in old(store) || t in Merged()
    {
      while buffered != map[]
        invariant Merged() == old(Merged())
        invariant forall bound :: old(Backed(bound)) ==> Backed(bound)
        invariant forall t :: t in buffered ==> t in old(buffered)
        invariant forall t :: t in store ==> t in old(store) || t in Merged()
        decreases |buffered|
      {
        assert buffered.Keys != {};
        var earliest := LeastOf(buffered.Keys);
        if watermark < earliest {
          return;
        }
        MergeFlush(persisted, buffered, earliest);
        assert earliest in Merged();
        hide MergeLayers, BackedBy;
        forall bound | Backed(bound)
          ensures BackedBy(persisted[earliest := At(earliest)], buffered - {earliest},
                           store[earliest := Slot(store, earliest) + buffered[earliest]], bound)
        {
          FlushBacked(persisted, buffered, store, earliest, bound);
        }
        store := store[earliest := Slot(store, earliest) + buffered[earliest]];
        persisted, buffered := persisted[earliest := At(earliest)], buffered - {earliest};
      }
    }

    method Flush()
      modifies this
      ensures Merged() == old(Merged()) && buffered == map[] && persisted == Merged()
      ensures old(buffered) == map[] ==> store == old(store)
      ensures forall bound :: old(Backed(bound)) ==> Backed(bound)
      ensures forall t :: t in store ==> t in old(store) || t in Merged()
    {
      if buffered != map[] {
        assert buffered.Keys != {};
        var latest := GreatestOf(buffered.Keys);
        ghost var before := buffered;
        assert forall t :: t in before ==> t in before.Keys && t <= latest;
        FlushAtWatermark(latest);
        assert forall t :: t !in buffered;
        assert buffered == map[];
      }
      MergeNothing(persisted);
    }
  }

  lemma {:induction false} StaleIsThere<V(!new)>(table: TimeKeyMap<V>, t: int, k: int, v: V)
    ensures table.Stale(t, k, v) ==> t in table.Merged()
  {
  }

  lemma {:induction false} LaterBound<V(!new)>(table: TimeKeyMap<V>, before: int, after: int)
    ensures before <= after && table.Backed(before) ==> table.Backed(after)
  {
  }

  /** A table that has just been flushed comes back from its store, except for times before the bound. */
  lemma {:induction false} RestoresTable<V(!new)>(table: TimeKeyMap<V>, bound: int)
    requires table.Backed(bound) && table.buffered == map[]
    ensures Restored(table.store, bound) == Restored(table.Merged(), bound)
  {
    MergeNothing(table.persisted);
  }

  /** 5 is checkpointed, becomes 8, and is written back to 5: the table still answers 8. */
  method LostWrite() returns (r: Option<int>)
    ensures r == Some(8)
  {
    var table := new TimeKeyMap<int>();
    table.Insert(0, 1, 5);
    table.Flush();
    assert table.persisted[0][1] == 5;
    table.Insert(0, 1, 8);
    assert table.Merged()[0][1] == 8;
    MergeSlot(table.persisted, table.buffered, 0);
    assert table.Stale(0, 1, 5);
    table.Insert(0, 1, 5);
    r := table.Get(0, 1);
  }
}
