/**
 * Header field tables: a list of fields, oldest first, and the maps that find the newest
 * field with a given name, or name and value.
 */
module HeaderTable {
  import opened Bits

  datatype Field = Field(name: Bytes, value: Bytes, sensitive: bool)

  type Pair = (Bytes, Bytes)

  // The newest entry with this name, or -1.
  function LastName(ents: seq<Field>, name: Bytes): (k: int)
    ensures -1 <= k < |ents|
    ensures k >= 0 ==> ents[k].name == name
    ensures forall j :: k < j < |ents| ==> ents[j].name != name
  {
    if ents == [] then -1
    else if ents[|ents| - 1].name == name then |ents| - 1
    else LastName(ents[..|ents| - 1], name)
  }

  // The newest entry with this name and value, or -1.
  function LastPair(ents: seq<Field>, p: Pair): (k: int)
    ensures -1 <= k < |ents|
    ensures k >= 0 ==> (ents[k].name, ents[k].value) == p
    ensures forall j :: k < j < |ents| ==> (ents[j].name, ents[j].value) != p
  {
    if ents == [] then -1
    else if (ents[|ents| - 1].name, ents[|ents| - 1].value) == p then |ents| - 1
    else LastPair(ents[..|ents| - 1], p)
  }

  // HPACK numbers the static table from its first entry and a dynamic table from its newest.
  function IndexOf(n: nat, fixed: bool, k: nat): (i: nat)
    requires k < n
    ensures 1 <= i <= n
  {
    if fixed then k + 1 else n - k
  }

  // What a scan of the whole list finds.
  function Scan(ents: seq<Field>, fixed: bool, f: Field): (r: (nat, bool))
    ensures r.0 <= |ents|
    ensures r.1 ==> r.0 > 0
  {
    var p := LastPair(ents, (f.name, f.value));
    var k := LastName(ents, f.name);
    if !f.sensitive && p >= 0 then (IndexOf(|ents|, fixed, p), true)
    else if k >= 0 then (IndexOf(|ents|, fixed, k), false)
    else (0, false)
  }

  // A map that yields 0 for a missing key.
  function Get<K>(m: map<K, nat>, key: K): nat {
    if key in m then m[key] else 0
  }

  // Entry k was the (evicted + k + 1)-th ever added.
  function IdFrom(evicted: nat, from: int, k: int): nat
    requires from >= 0
  {
    if k >= from then evicted + k + 1 else 0
  }

  // The maps know the newest occurrence of everything in ents, as far as it is at or after `from`.
  ghost predicate Agrees(ents: seq<Field>, evicted: nat, from: nat, byName: map<Bytes, nat>, byPair: map<Pair, nat>) {
    && (forall name: Bytes :: Get(byName, name) == IdFrom(evicted, from, LastName(ents, name)))
    && (forall p: Pair :: Get(byPair, p) == IdFrom(evicted, from, LastPair(ents, p)))
  }

  lemma LastAppend(ents: seq<Field>, f: Field, name: Bytes, p: Pair)
    ensures LastName(ents + [f], name) == if f.name == name then |ents| else LastName(ents, name)
    ensures LastPair(ents + [f], p) == if (f.name, f.value) == p then |ents| else LastPair(ents, p)
  {
    assert (ents + [f])[..|ents|] == ents;
  }

  lemma LastDrop(ents: seq<Field>, n: nat, name: Bytes, p: Pair)
    requires n <= |ents|
    ensures LastName(ents[n..], name) == if LastName(ents, name) >= n then LastName(ents, name) - n else -1
    ensures LastPair(ents[n..], p) == if LastPair(ents, p) >= n then LastPair(ents, p) - n else -1
  {
    hide LastName, LastPair;
    var rest := ents[n..];
    var k, j := LastName(rest, name), LastName(ents, name);
    assert k >= 0 ==> ents[k + n] == rest[k];
    assert j >= n ==> rest[j - n] == ents[j];
    var k', j' := LastPair(rest, p), LastPair(ents, p);
    assert k' >= 0 ==> ents[k' + n] == rest[k'];
    assert j' >= n ==> rest[j' - n] == ents[j'];
  }

  lemma AgreesAppend(ents: seq<Field>, evicted: nat, f: Field, byName: map<Bytes, nat>, byPair: map<Pair, nat>)
    requires Agrees(ents, evicted, 0, byName, byPair)
    ensures var id := |ents| + evicted + 1;
            Agrees(ents + [f], evicted, 0, byName[f.name := id], byPair[(f.name, f.value) := id])
  {
    hide LastName, LastPair;
    forall name: Bytes
      ensures LastName(ents + [f], name) == if f.name == name then |ents| else LastName(ents, name)
    {
      LastAppend(ents, f, name, ([], []));
    }
    forall p: Pair
      ensures LastPair(ents + [f], p) == if (f.name, f.value) == p then |ents| else LastPair(ents, p)
    {
      LastAppend(ents, f, [], p);
    }
  }

  lemma AgreesEvicted(ents: seq<Field>, evicted: nat, n: nat, byName: map<Bytes, nat>, byPair: map<Pair, nat>)
    requires n <= |ents| && Agrees(ents, evicted, n, byName, byPair)
    ensures Agrees(ents[n..], evicted + n, 0, byName, byPair)
  {
    hide LastName, LastPair;
    forall name: Bytes
      ensures LastName(ents[n..], name) == if LastName(ents, name) >= n then LastName(ents, name) - n else -1
    {
      LastDrop(ents, n, name, ([], []));
    }
    forall p: Pair
      ensures LastPair(ents[n..], p) == if LastPair(ents, p) >= n then LastPair(ents, p) - n else -1
    {
      LastDrop(ents, n, [], p);
    }
  }

  // Forgetting entry k where it is still the newest of its name, or of its name and value.
  lemma AgreesForget(ents: seq<Field>, evicted: nat, k: nat, byName: map<Bytes, nat>, byPair: map<Pair, nat>)
    requires k < |ents| && Agrees(ents, evicted, k, byName, byPair)
    ensures var id, name, p := evicted + k + 1, ents[k].name, (ents[k].name, ents[k].value);
            Agrees(ents, evicted, k + 1,
                   if Get(byName, name) == id then byName - {name} else byName,
                   if Get(byPair, p) == id then byPair - {p} else byPair)
  {
    hide LastName, LastPair;
  }

  class HeaderFieldTable {
    // Oldest first; ents[k] has the unique id k + evictCount + 1.
    var ents: seq<Field>
    var evictCount: nat
    // The maps exist from the first search on.
    var built: bool
    var byName: map<Bytes, nat>
    var byPair: map<Pair, nat>
    // The static table is numbered from its first entry.
    const fixed: bool

    ghost predicate Valid()
      reads this
    {
      built ==> Agrees(ents, evictCount, 0, byName, byPair)
    }

    constructor (fixed: bool, ents: seq<Field>)
      ensures Valid() && this.ents == ents && this.fixed == fixed && evictCount == 0 && !built
    {
      this.fixed := fixed;
      this.ents := ents;
      evictCount, built := 0, false;
      byName, byPair := map[], map[];
    }

    method BuildMaps()
      modifies this
      ensures Valid() && built && ents == old(ents) && evictCount == old(evictCount)
    {
      hide LastName, LastPair, Agrees;
      byName, byPair := map[], map[];
      NoneAgree(evictCount);
      var k := 0;
      while k < |ents|
        invariant k <= |ents| && ents == old(ents) && evictCount == old(evictCount)
        invariant Agrees(ents[..k], evictCount, 0, byName, byPair)
      {
        var f := ents[k];
        var id := evictCount + k + 1;
        AgreesAppend(ents[..k], evictCount, f, byName, byPair);
        assert ents[..k + 1] == ents[..k] + [f];
        byName := byName[f.name := id];
        byPair := byPair[(f.name, f.value) := id];
        k := k + 1;
      }
      assert ents[..k] == ents;
      built := true;
    }

    method AddEntry(f: Field)
      requires Valid()
      modifies this
      ensures Valid() && ents == old(ents) + [f] && evictCount == old(evictCount) && built == old(built)
    {
      hide LastName, LastPair, Agrees;
      if built {
        var id := |ents| + evictCount + 1;
        AgreesAppend(ents, evictCount, f, byName, byPair);
        byName := byName[f.name := id];
        byPair := byPair[(f.name, f.value) := id];
      }
      ents := ents + [f];
    }

    method EvictOldest(n: nat)
      requires Valid() && n <= |ents|
      modifies this
      ensures Valid() && ents == old(ents)[n..] && evictCount == old(evictCount) + n && built == old(built)
    {
      hide LastName, LastPair, Agrees;
      if built {
        var k := 0;
        while k < n
          invariant k <= n && ents == old(ents) && evictCount == old(evictCount) && built
          invariant Agrees(ents, evictCount, k, byName, byPair)
        {
          var f := ents[k];
          var id := evictCount + k + 1;
          AgreesForget(ents, evictCount, k, byName, byPair);
          if Get(byName, f.name) == id {
            byName := byName - {f.name};
          }
          var p := (f.name, f.value);
          if Get(byPair, p) == id {
            byPair := byPair - {p};
          }
          k := k + 1;
        }
        AgreesEvicted(ents, evictCount, n, byName, byPair);
      }
      ents := ents[n..];
      evictCount := evictCount + n;
    }

    method IdToIndex(id: nat) returns (i: nat)
      requires evictCount < id <= evictCount + |ents|
      ensures i == IndexOf(|ents|, fixed, id - evictCount - 1)
    {
      var k := id - evictCount - 1;
      if !fixed {
        return |ents| - k;
      }
      return k + 1;
    }

    // search: the maps are built by the first call; the answer is that of a scan.
    method Search(f: Field) returns (i: nat, nameValueMatch: bool)
      requires Valid()
      modifies this
      ensures Valid() && built && ents == old(ents) && evictCount == old(evictCount)
      ensures (i, nameValueMatch) == Scan(ents, fixed, f)
    {
      hide LastName, LastPair;
      if !built {
        BuildMaps();
      }
      if !f.sensitive {
        var id := Get(byPair, (f.name, f.value));
        if id != 0 {
          i := IdToIndex(id);
          return i, true;
        }
      }
      var id := Get(byName, f.name);
      if id != 0 {
        i := IdToIndex(id);
        return i, false;
      }
      return 0, false;
    }
  }

  lemma NoneAgree(evicted: nat)
    ensures Agrees([], evicted, 0, map[], map[])
  {
  }

  // The entry an index stands for, as the decoder looks it up.
  function EntryAt(ents: seq<Field>, fixed: bool, i: nat): Field
    requires 1 <= i <= |ents|
  {
    if fixed then ents[i - 1] else ents[|ents| - i]
  }

  // A scan returns the newest exact match of a field that is not sensitive, else the newest
  // entry of that name, else 0.
  lemma ScanMeaning(ents: seq<Field>, fixed: bool, f: Field)
    ensures var (i, exact) := Scan(ents, fixed, f);
            && (i > 0 ==> EntryAt(ents, fixed, i).name == f.name)
            && (exact ==> !f.sensitive && EntryAt(ents, fixed, i).value == f.value)
            && (i > 0 ==> forall e: nat :: 1 <= e <= |ents| && (if fixed then e > i else e < i) ==>
                  EntryAt(ents, fixed, e).name != f.name || (exact && EntryAt(ents, fixed, e).value != f.value))
            && (!exact && !f.sensitive ==>
                  forall e: nat :: 1 <= e <= |ents| ==>
                    EntryAt(ents, fixed, e).name != f.name || EntryAt(ents, fixed, e).value != f.value)
            && (i == 0 ==> forall e: nat :: 1 <= e <= |ents| ==> EntryAt(ents, fixed, e).name != f.name)
  {
    hide LastName, LastPair;
  }
}
