/** Renaming of EGL handles during replay: map.c keeps up to 16 maps of 16 entries in one static array,
    and retrace.c passes every recorded surface or context through them. */
module HandleMap {
  import opened Words

  const MAX_MAPS: nat := 16
  const MAX_KEYS: nat := 16

  function With(table: map<long, long>, key: long, val: long): (r: map<long, long>)
    ensures |r| == |table| + if key in table then 0 else 1
  {
    assert table[key := val].Keys == table.Keys + {key};
    table[key := val]
  }

  // ---------------------------------------------------------------- one map

  /** The slots of a map: key, value, key, value, ... */
  predicate IsBlock(s: seq<long>) {
    |s| == 32
  }

  function Key(s: seq<long>, i: nat): long
    requires IsBlock(s) && i < MAX_KEYS
  {
    s[2 * i]
  }

  function Val(s: seq<long>, i: nat): long
    requires IsBlock(s) && i < MAX_KEYS
  {
    s[2 * i + 1]
  }

  /** The block holds `table` in its first slots and no key behind them. */
  ghost predicate Holds(s: seq<long>, table: map<long, long>)
    requires IsBlock(s)
  {
    && |table| <= MAX_KEYS && 0 !in table
    && (forall i :: 0 <= i < |table| ==> Key(s, i) in table && table[Key(s, i)] == Val(s, i))
    && (forall k :: k in table ==> exists i :: 0 <= i < |table| && Key(s, i) == k)
    && (forall i, j :: 0 <= i < j < |table| ==> Key(s, i) != Key(s, j))
    && (forall i :: |table| <= i < MAX_KEYS ==> Key(s, i) == 0)
  }

  /** The key is not in the first `n` slots. */
  ghost predicate Missing(s: seq<long>, n: nat, key: long)
    requires IsBlock(s) && n <= MAX_KEYS
  {
    forall j :: 0 <= j < n ==> Key(s, j) != key
  }

  function Put(s: seq<long>, i: nat, key: long, val: long): (s': seq<long>)
    requires IsBlock(s) && i < MAX_KEYS
    ensures IsBlock(s')
    ensures forall j :: 0 <= j < MAX_KEYS ==> Key(s', j) == if j == i then key else Key(s, j)
    ensures forall j :: 0 <= j < MAX_KEYS ==> Val(s', j) == if j == i then val else Val(s, j)
  {
    s[2 * i := key][2 * i + 1 := val]
  }

  lemma FirstFree(s: seq<long>, i: nat, key: long, val: long, table: map<long, long>)
    requires IsBlock(s) && Holds(s, table) && i < MAX_KEYS && i <= |table|
    requires Key(s, i) == 0 && Missing(s, i, key)
    ensures i == |table| && key !in table && 0 !in table
    ensures Holds(Put(s, i, key, val), if key == 0 then table else With(table, key, val))
  {
    hide Put, Key, Val, Missing;
    FreeIsEnd(s, i, key, table);
    if key != 0 {
      FreeCovers(s, i, key, val, table);
    }
  }

  /** The first free slot is the one behind the entries, and the key searched for is not among them. */
  lemma FreeIsEnd(s: seq<long>, i: nat, key: long, table: map<long, long>)
    requires IsBlock(s) && Holds(s, table) && i < MAX_KEYS && i <= |table|
    requires Key(s, i) == 0 && Missing(s, i, key)
    ensures i == |table| && key !in table && 0 !in table
  {
    hide Key, Val;
  }

  /** With the new entry every key is still in a slot. */
  lemma FreeCovers(s: seq<long>, i: nat, key: long, val: long, table: map<long, long>)
    requires IsBlock(s) && i < MAX_KEYS && i == |table| && key !in table
    requires forall k :: k in table ==> exists j :: 0 <= j < |table| && Key(s, j) == k
    ensures var s', table' := Put(s, i, key, val), With(table, key, val);
            forall k :: k in table' ==> exists j :: 0 <= j < |table'| && Key(s', j) == k
  {
    hide Put, Key, Val;
    var s', table' := Put(s, i, key, val), With(table, key, val);
    forall k | k in table'
      ensures exists j :: 0 <= j < |table'| && Key(s', j) == k
    {
      if k == key {
        assert Key(s', i) == k;
      } else {
        var j :| 0 <= j < |table| && Key(s, j) == k;
        assert Key(s', j) == k;
      }
    }
  }

  lemma KnownKey(s: seq<long>, i: nat, key: long, val: long, table: map<long, long>)
    requires IsBlock(s) && Holds(s, table) && i < MAX_KEYS && Key(s, i) == key && key != 0
    ensures key in table && table[key] == Val(s, i)
    ensures Holds(Put(s, i, key, val), With(table, key, val))
  {
    hide Put, Key, Val;
    assert i < |table|;
    var s', table' := Put(s, i, key, val), With(table, key, val);
    forall k | k in table'
      ensures exists j :: 0 <= j < |table'| && Key(s', j) == k
    {
      var j :| 0 <= j < |table| && Key(s, j) == k;
      assert Key(s', j) == k;
    }
  }

  lemma NoSuchKey(s: seq<long>, n: nat, key: long, table: map<long, long>)
    requires IsBlock(s) && Holds(s, table) && n <= MAX_KEYS && Missing(s, n, key)
    requires n == MAX_KEYS || Key(s, n) == 0
    ensures key !in table
    ensures n < MAX_KEYS ==> |table| <= n
  {
    hide Key, Val;
  }

  lemma Searched(s: seq<long>, i: nat, key: long, table: map<long, long>)
    requires IsBlock(s) && Holds(s, table) && i < MAX_KEYS && Missing(s, i, key)
    requires Key(s, i) != 0 && Key(s, i) != key
    ensures i < |table| && Missing(s, i + 1, key)
  {
    hide Key, Val;
  }

  lemma NothingSearched(s: seq<long>, key: long)
    requires IsBlock(s)
    ensures Missing(s, 0, key)
  {
  }

  // ---------------------------------------------------------------- all maps

  class Maps {
    const space: array<long>
    var lastMap: int
    /** What each created map associates with its non-null keys. */
    ghost var tables: seq<map<long, long>>

    ghost predicate Valid()
      reads this, space
    {
      && space.Length == 512
      && -1 <= lastMap < MAX_MAPS && |tables| == lastMap + 1
      && (forall m :: 0 <= m < |tables| ==> Holds(Block(m), tables[m]))
      && (forall j :: 32 * |tables| <= j < space.Length ==> space[j] == 0)
    }

    ghost function Block(m: nat): (s: seq<long>)
      requires space.Length == 512 && m < MAX_MAPS
      reads space
      ensures IsBlock(s)
    {
      space[32 * m..32 * m + 32]
    }

    constructor ()
      ensures Valid() && fresh(space) && tables == []
    {
      space := new long[MAX_MAPS * MAX_KEYS * 2](i => 0);
      lastMap, tables := -1, [];
    }

    /** A new empty map, or none when all are in use. */
    method CreateMap() returns (m: Option<nat>)
      requires Valid()
      modifies this
      ensures Valid() && (m == None <==> |old(tables)| == MAX_MAPS)
      ensures m == None ==> tables == old(tables)
      ensures m != None ==> m == Some(|old(tables)|) && tables == old(tables) + [map[]]
    {
      if lastMap + 1 >= MAX_MAPS {
        return None;
      }
      lastMap := lastMap + 1;
      tables := tables + [map[]];
      m := Some(lastMap);
      assert Holds(Block(lastMap), map[]);
    }

    /** Set one entry of one map, and none of any other. */
    method Store(m: nat, i: nat, key: long, val: long)
      requires Valid() && m < |tables| && i < MAX_KEYS
      modifies space
      ensures Block(m) == Put(old(Block(m)), i, key, val)
      ensures forall k: nat :: k < MAX_MAPS && k != m ==> Block(k) == old(Block(k))
      ensures forall j :: 32 * |tables| <= j < space.Length ==> space[j] == 0
    {
      hide Holds;
      space[32 * m + 2 * i] := key;
      space[32 * m + 2 * i + 1] := val;
      assert Block(m) == old(Block(m))[2 * i := key][2 * i + 1 := val];
      forall k: nat | k < MAX_MAPS && k != m ensures Block(k) == old(Block(k)) {
        assert k < m || m < k;
        assert forall j :: 32 * k <= j < 32 * k + 32 ==> space[j] == old(space[j]);
      }
    }

    /** Associate a key with a value: fails exactly when the map is full and does not know the key.
        A null key goes to the first free slot, where it is no key at all. No other map changes. */
    method PutMap(m: nat, key: long, val: long) returns (ok: bool)
      requires Valid() && m < |tables|
      modifies this`tables, space
      ensures Valid()
      ensures ok <==> key in old(tables[m]) || |old(tables[m])| < MAX_KEYS
      ensures tables == if ok && key != 0 then old(tables)[m := With(old(tables[m]), key, val)] else old(tables)
    {
      hide Holds, Missing, Put;
      ghost var s, table := Block(m), tables[m];
      var i := 0;
      NothingSearched(s, key);
      while i < MAX_KEYS
        invariant i <= MAX_KEYS && i <= |table| && Missing(s, i, key)
        invariant Valid() && tables == old(tables) && Block(m) == s
      {
        assert space[32 * m + 2 * i] == Key(s, i);
        if space[32 * m + 2 * i] == 0 {
          FirstFree(s, i, key, val, table);
          Store(m, i, key, val);
          if key != 0 {
            tables := tables[m := With(table, key, val)];
          }
          return true;
        } else if space[32 * m + 2 * i] == key {
          KnownKey(s, i, key, val, table);
          Store(m, i, key, val);
          tables := tables[m := With(table, key, val)];
          return true;
        }
        Searched(s, i, key, table);
        i := i + 1;
      }
      NoSuchKey(s, i, key, table);
      ok := false;
    }

    /** The value of a key, null for unknown keys. */
    method GetMap(m: nat, key: long) returns (val: long)
      requires Valid() && m < |tables|
      ensures val == if key in tables[m] then tables[m][key] else 0
    {
      hide Holds, Missing;
      ghost var s, table := Block(m), tables[m];
      var i := 0;
      NothingSearched(s, key);
      while i < MAX_KEYS
        invariant i <= MAX_KEYS && i <= |table| && Missing(s, i, key)
      {
        assert space[32 * m + 2 * i] == Key(s, i) && space[32 * m + 2 * i + 1] == Val(s, i);
        if space[32 * m + 2 * i] == 0 {
          NoSuchKey(s, i, key, table);
          return 0;
        } else if space[32 * m + 2 * i] == key {
          KnownKey(s, i, key, 0, table);
          return space[32 * m + 2 * i + 1];
        }
        Searched(s, i, key, table);
        i := i + 1;
      }
      NoSuchKey(s, i, key, table);
      val := 0;
    }
  }
}
