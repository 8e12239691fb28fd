/** The size-bounded dynamic table of RFC 7541, section 4. */
module DynamicTable {
  import opened HeaderTable

  const UINT32: nat := 0x1_0000_0000

  // Oldest entry first. Sizes are 32-bit counters in the source, and may wrap around.
  datatype Table = Table(ents: seq<Field>, size: nat, max: nat)

  function Size(f: Field): nat {
    (|f.name| + |f.value| + 32) % UINT32
  }

  function DropOldest(d: Table): Table
    requires d.ents != []
  {
    Table(d.ents[1..], (d.size - Size(d.ents[0])) % UINT32, d.max)
  }

  function Evict(d: Table): Table
    decreases |d.ents|
  {
    if d.size > d.max && |d.ents| > 0 then Evict(DropOldest(d)) else d
  }

  function SetMax(d: Table, v: nat): Table {
    Evict(d.(max := v))
  }

  function Add(d: Table, f: Field): Table {
    Evict(Table(d.ents + [f], (d.size + Size(f)) % UINT32, d.max))
  }

  function Total(ents: seq<Field>): nat {
    if ents == [] then 0 else Size(ents[0]) + Total(ents[1..])
  }

  // The counter is the sum of the entry sizes, modulo 2^32.
  ghost predicate Sized(d: Table) {
    d.size == Total(d.ents) % UINT32
  }

  ghost predicate Suffix(e: seq<Field>, d: seq<Field>) {
    |e| <= |d| && d[|d| - |e|..] == e
  }

  lemma {:induction false} TotalConcat(u: seq<Field>, v: seq<Field>)
    ensures Total(u + v) == Total(u) + Total(v)
  {
    if u == [] {
      assert u + v == v;
    } else {
      TotalConcat(u[1..], v);
      assert (u + v)[1..] == u[1..] + v;
    }
  }

  lemma SizedRest(d: Table)
    requires Sized(d) && d.ents != []
    ensures Sized(DropOldest(d))
  {
  }

  lemma SizedMore(d: Table, f: Field)
    requires Sized(d)
    ensures Sized(Table(d.ents + [f], (d.size + Size(f)) % UINT32, d.max))
  {
    TotalConcat(d.ents, [f]);
    assert Total([f]) == Size(f) + Total([]);
  }

  // The newest entry is evicted only if it does not fit alone.
  lemma AddStays(d: Table, f: Field)
    requires Sized(d) && Size(f) <= d.max
    ensures f in Add(d, f).ents
  {
    hide Evict;
    SizedMore(d, f);
    EvictNewest(Table(d.ents + [f], (d.size + Size(f)) % UINT32, d.max), f);
  }

  lemma {:induction false} EvictNewest(d: Table, f: Field)
    requires Sized(d) && d.ents != [] && d.ents[|d.ents| - 1] == f && Size(f) <= d.max
    ensures f in Evict(d).ents
    decreases |d.ents|
  {
    hide Size;
    if d.size > d.max {
      SizedRest(d);
      if |d.ents| == 1 {
        OneEntry(d, f);
      } else {
        EvictNewest(DropOldest(d), f);
      }
    }
  }

  lemma OneEntry(d: Table, f: Field)
    requires Sized(d) && |d.ents| == 1 && d.ents[0] == f
    ensures d.size == Size(f)
  {
    assert Total(d.ents) == Size(f) + Total(d.ents[1..]);
  }

  // Eviction drops the oldest entries until the rest fits; an empty table always fits.
  lemma {:induction false} EvictFits(d: Table)
    requires Sized(d)
    ensures Sized(Evict(d)) && Evict(d).max == d.max
    ensures Evict(d).size <= d.max
    ensures Suffix(Evict(d).ents, d.ents)
    decreases |d.ents|
  {
    if d.size > d.max && |d.ents| > 0 {
      SizedRest(d);
      EvictFits(DropOldest(d));
    }
  }

  // A table with at least as much room, and the same newest entries, keeps at least as many.
  lemma {:induction false} EvictSuffix(e: Table, d: Table)
    requires Sized(e) && Sized(d) && Suffix(e.ents, d.ents) && e.max <= d.max
    ensures Suffix(Evict(e).ents, Evict(d).ents)
    decreases |d.ents|
  {
    hide Total, Size, Sized, DropOldest;
    EvictFits(e);
    if d.size > d.max && |d.ents| > 0 {
      SizedRest(d);
      DropOldestShape(d);
      if |e.ents| == |d.ents| {
        SameSize(e, d);
        SizedRest(e);
        DropOldestShape(e);
        EvictSuffix(DropOldest(e), DropOldest(d));
      } else {
        assert DropOldest(d).ents[|d.ents| - 1 - |e.ents|..] == e.ents;
        EvictSuffix(e, DropOldest(d));
      }
    }
  }

  lemma DropOldestShape(d: Table)
    requires d.ents != []
    ensures DropOldest(d).ents == d.ents[1..] && DropOldest(d).max == d.max
  {
  }

  lemma SameSize(e: Table, d: Table)
    requires Sized(e) && Sized(d) && Suffix(e.ents, d.ents) && |e.ents| == |d.ents|
    ensures e.ents == d.ents && e.size == d.size
  {
  }

  lemma AddSuffix(e: Table, d: Table, f: Field)
    requires Sized(e) && Sized(d) && Suffix(e.ents, d.ents) && e.max <= d.max
    ensures Suffix(Add(e, f).ents, Add(d, f).ents)
    ensures Sized(Add(e, f)) && Sized(Add(d, f))
    ensures Add(e, f).max == e.max && Add(d, f).max == d.max && Add(e, f).size <= e.max
  {
    hide Evict, Total, Size, Sized;
    SizedMore(e, f);
    SizedMore(d, f);
    var e', d' := Table(e.ents + [f], (e.size + Size(f)) % UINT32, e.max), Table(d.ents + [f], (d.size + Size(f)) % UINT32, d.max);
    assert d'.ents[|d'.ents| - |e'.ents|..] == e'.ents;
    EvictSuffix(e', d');
    EvictFits(e');
    EvictFits(d');
  }

  // Lowering the bound of d to something e still fits in.
  lemma SetMaxSuffix(e: Table, d: Table, v: nat)
    requires Sized(e) && Sized(d) && Suffix(e.ents, d.ents) && e.size <= v
    ensures Suffix(e.ents, SetMax(d, v).ents) && Sized(SetMax(d, v)) && SetMax(d, v).max == v
  {
    var e' := e.(max := v);
    assert Sized(e') && Sized(d.(max := v));
    assert Evict(e') == e';
    EvictSuffix(e', d.(max := v));
    EvictFits(d.(max := v));
  }

  lemma SetMaxFits(e: Table, v: nat)
    requires Sized(e)
    ensures var e' := SetMax(e, v);
            Sized(e') && e'.max == v && e'.size <= v && Suffix(e'.ents, e.ents)
  {
    assert Sized(e.(max := v));
    EvictFits(e.(max := v));
  }

  // Two bounds in turn do what the smaller one does.
  lemma {:induction false} EvictTwice(d: Table, a: nat, b: nat)
    requires b <= a
    ensures Evict(Evict(d.(max := a)).(max := b)) == Evict(d.(max := b))
    decreases |d.ents|
  {
    if d.size > a && |d.ents| > 0 {
      hide Size;
      EvictTwice(DropOldest(d), a, b);
    }
  }

  lemma SetMaxTwice(d: Table, a: nat, b: nat)
    requires Sized(d)
    ensures SetMax(SetMax(d, a), b) == SetMax(d, if a < b then a else b).(max := b)
  {
    hide Evict, Sized;
    SetMaxFits(d, a);
    if a < b {
      NoEviction(SetMax(d, a).(max := b));
    } else {
      EvictTwice(d, a, b);
      SetMaxFits(d, b);
    }
  }

  lemma NoEviction(d: Table)
    requires d.size <= d.max
    ensures Evict(d) == d
  {
  }

  lemma SuffixTrans(a: seq<Field>, b: seq<Field>, c: seq<Field>)
    requires Suffix(a, b) && Suffix(b, c)
    ensures Suffix(a, c)
  {
    assert c[|c| - |a|..] == b[|b| - |a|..];
  }

  // Eviction never does more than it has to: everything dropped had to go.
  lemma {:induction false} EvictIsLongest(d: Table, k: nat)
    requires Sized(d) && |Evict(d).ents| < k <= |d.ents|
    ensures Total(d.ents[|d.ents| - k..]) % UINT32 > d.max
    decreases |d.ents|
  {
    var d' := DropOldest(d);
    if k == |d.ents| {
      assert d.ents[0..] == d.ents;
    } else {
      SizedRest(d);
      EvictIsLongest(d', k);
      assert d'.ents[|d'.ents| - k..] == d.ents[|d.ents| - k..];
    }
  }

  class DynTable {
    const table: HeaderFieldTable
    var size: nat
    var maxSize: nat
    var allowedMaxSize: nat

    ghost predicate Valid()
      reads this, table
    {
      table.Valid() && !table.fixed && size < UINT32
    }

    function State(): Table
      reads this, table
    {
      Table(table.ents, size, maxSize)
    }

    constructor ()
      ensures Valid() && fresh(table) && State() == Table([], 0, 0) && allowedMaxSize == 0
    {
      table := new HeaderFieldTable(false, []);
      size, maxSize, allowedMaxSize := 0, 0, 0;
    }

    method SetMaxSize(v: nat)
      requires Valid()
      modifies this`maxSize, this`size, table
      ensures Valid() && State() == SetMax(old(State()), v)
    {
      maxSize := v;
      EvictLoop();
    }

    method AddField(f: Field)
      requires Valid()
      modifies this`size, table
      ensures Valid() && State() == Add(old(State()), f)
    {
      table.AddEntry(f);
      size := (size + Size(f)) % UINT32;
      EvictLoop();
    }

    method EvictLoop()
      requires Valid()
      modifies this`size, table
      ensures Valid() && State() == Evict(old(State()))
    {
      var n: nat := 0;
      ghost var goal := Evict(State());
      assert table.ents[0..] == table.ents;
      while size > maxSize && n < |table.ents|
        invariant n <= |table.ents| && Valid()
        invariant table.ents == old(table.ents)
        invariant Evict(Table(table.ents[n..], size, maxSize)) == goal
        decreases |table.ents| - n
      {
        assert table.ents[n..][1..] == table.ents[n + 1..];
        size := (size - Size(table.ents[n])) % UINT32;
        n := n + 1;
      }
      table.EvictOldest(n);
    }
  }
}
