/** The in-memory file allocation table and its cluster chains.
    A chain is the sequence of clusters that starts at a head and follows the
    masked 28-bit entries up to an end mark. */
module FatTables {
  type U32 = x: int | 0 <= x < 0x1_0000_0000

  const END_OF_CHAIN: U32 := 0x0FFF_FFF8
  const MAX_CLUSTERS := 524288   // 4096 FAT sectors of 128 entries

  type Table = seq<U32>
  type Chains = map<nat, seq<nat>>

  datatype Result =
    | Ok
    | NotFound
    | AlreadyExists
    | NotADirectory
    | IsADirectory
    | DirectoryNotEmpty
    | InvalidName
    | NoSpace
    | IoError

  predicate IsDataCluster(fat: Table, c: int) {
    2 <= c < |fat|
  }

  /** The guard of every chain walk. */
  predicate InChain(c: int) {
    2 <= c < END_OF_CHAIN
  }

  function Next(fat: Table, c: int): (n: U32)
    ensures n < 0x1000_0000
  {
    if IsDataCluster(fat, c) then fat[c] % 0x1000_0000 else END_OF_CHAIN
  }

  function Set(fat: Table, c: int, v: U32): (r: Table)
    ensures |r| == |fat|
  {
    if IsDataCluster(fat, c) then fat[c := v % 0x1000_0000] else fat
  }

  predicate IsFree(fat: Table, c: int) {
    IsDataCluster(fat, c) && fat[c] == 0
  }

  // ---------------------------------------------------------------- chains

  predicate LinkAt(fat: Table, cs: seq<nat>, i: nat)
    requires i < |cs|
  {
    && IsDataCluster(fat, cs[i])
    && if i + 1 < |cs| then Next(fat, cs[i]) == cs[i + 1] else Next(fat, cs[i]) >= END_OF_CHAIN
  }

  ghost predicate IsChain(fat: Table, cs: seq<nat>) {
    && |cs| > 0
    && forall i: nat | i < |cs| :: LinkAt(fat, cs, i)
  }

  ghost predicate Apart(a: seq<nat>, b: seq<nat>) {
    forall c | c in a :: c !in b
  }

  ghost predicate NoDuplicates(cs: seq<nat>) {
    forall i: nat, j: nat | i < j < |cs| :: cs[i] != cs[j]
  }

  ghost predicate ChainAt(fat: Table, chains: Chains, h: nat)
    requires h in chains
  {
    IsChain(fat, chains[h]) && chains[h][0] == h
  }

  /** Every registered head starts a proper chain and no two chains meet. */
  ghost predicate ValidChains(fat: Table, chains: Chains) {
    && |fat| <= MAX_CLUSTERS
    && (forall h | h in chains :: ChainAt(fat, chains, h))
    && (forall h, k | h in chains && k in chains && h != k :: Apart(chains[h], chains[k]))
  }

  /** The two tables agree on every cluster outside `touched`. */
  ghost predicate AgreeOff(fat: Table, fat': Table, touched: seq<nat>) {
    && |fat'| == |fat|
    && forall c | 0 <= c < |fat| && c !in touched :: fat'[c] == fat[c]
  }

  /** A chain is determined by its head. */
  lemma {:induction false} ChainUnique(fat: Table, a: seq<nat>, b: seq<nat>)
    requires |fat| <= MAX_CLUSTERS
    requires IsChain(fat, a) && IsChain(fat, b) && a[0] == b[0]
    ensures a == b
    decreases |a|
  {
    assert LinkAt(fat, a, 0) && LinkAt(fat, b, 0);
    assert |a| > 1 ==> LinkAt(fat, a, 1);
    assert |b| > 1 ==> LinkAt(fat, b, 1);
    if |a| > 1 && |b| > 1 {
      ChainSuffix(fat, a, 1);
      ChainSuffix(fat, b, 1);
      ChainUnique(fat, a[1..], b[1..]);
      assert a == [a[0]] + a[1..];
      assert b == [b[0]] + b[1..];
    }
  }

  lemma ChainSuffix(fat: Table, cs: seq<nat>, k: nat)
    requires IsChain(fat, cs) && k < |cs|
    ensures IsChain(fat, cs[k..])
  {
    forall i: nat | i < |cs[k..]| ensures LinkAt(fat, cs[k..], i) {
      assert LinkAt(fat, cs, k + i);
    }
  }

  /** A chain never visits a cluster twice. */
  lemma ChainAcyclic(fat: Table, cs: seq<nat>)
    requires |fat| <= MAX_CLUSTERS
    requires IsChain(fat, cs)
    ensures NoDuplicates(cs)
  {
    forall i: nat, j: nat | i < j < |cs| ensures cs[i] != cs[j] {
      assert |cs[i..]| != |cs[j..]|;
      ChainSuffix(fat, cs, i);
      ChainSuffix(fat, cs, j);
      if cs[i] == cs[j] {
        ChainUnique(fat, cs[i..], cs[j..]);
      }
    }
  }

  lemma ChainInUse(fat: Table, cs: seq<nat>, c: nat)
    requires IsChain(fat, cs) && c in cs
    ensures IsDataCluster(fat, c) && !IsFree(fat, c)
  {
    var i: nat :| i < |cs| && cs[i] == c;
    assert LinkAt(fat, cs, i);
    if i + 1 < |cs| {
      assert LinkAt(fat, cs, i + 1);
    }
  }

  /** Chains are untouched by writes elsewhere in the table. */
  lemma ChainFrame(fat: Table, fat': Table, cs: seq<nat>, touched: seq<nat>)
    requires IsChain(fat, cs) && AgreeOff(fat, fat', touched) && Apart(cs, touched)
    ensures IsChain(fat', cs)
  {
    forall i: nat | i < |cs| ensures LinkAt(fat', cs, i) {
      assert LinkAt(fat, cs, i);
      assert cs[i] in cs;
    }
  }

  /** The registry after chain `h` (if any) is dropped and `renewed` (if any) takes its place. */
  ghost function Rechained(chains: Chains, h: nat, renewed: seq<nat>): Chains {
    var rest := chains - {h};
    if renewed == [] then rest else rest[renewed[0] := renewed]
  }

  ghost function OldChain(chains: Chains, h: nat): seq<nat> {
    if h in chains then chains[h] else []
  }

  /** Replacing one chain by clusters of its own or free ones keeps the registry valid. */
  lemma RechainValid(fat: Table, fat': Table, chains: Chains, h: nat, renewed: seq<nat>)
    requires ValidChains(fat, chains)
    requires AgreeOff(fat, fat', OldChain(chains, h) + renewed)
    requires renewed == [] || IsChain(fat', renewed)
    requires forall c | c in renewed :: c in OldChain(chains, h) || IsFree(fat, c)
    ensures ValidChains(fat', Rechained(chains, h, renewed))
  {
    var touched := OldChain(chains, h) + renewed;
    forall k | k in chains && k != h
      ensures Apart(chains[k], touched) && IsChain(fat', chains[k]) && Apart(touched, chains[k])
    {
      assert ChainAt(fat, chains, k);
      forall c | c in chains[k] ensures c !in touched {
        ChainInUse(fat, chains[k], c);
        if h in chains {
          assert Apart(chains[k], chains[h]);
        }
      }
      ChainFrame(fat, fat', chains[k], touched);
    }
    var chains' := Rechained(chains, h, renewed);
    forall k | k in chains' ensures ChainAt(fat', chains', k) {
      if k in chains && k != h {
        assert ChainAt(fat, chains, k);
        assert chains[k][0] in chains[k];
        if renewed != [] { assert renewed[0] in renewed; }
      }
    }
    forall k, l | k in chains' && l in chains' && k != l ensures Apart(chains'[k], chains'[l]) {
      if renewed != [] {
        assert renewed[0] in renewed;
      }
      if k in chains && k != h && l in chains && l != h {
        assert chains[k][0] in chains[k] by { assert ChainAt(fat, chains, k); }
        assert chains[l][0] in chains[l] by { assert ChainAt(fat, chains, l); }
        assert Apart(chains[k], chains[l]);
      }
    }
  }

  // ---------------------------------------------------- cutting and growing

  /** Writing an end mark at position `n - 1` leaves the first `n` clusters as a chain. */
  lemma CutValid(fat: Table, cs: seq<nat>, n: nat)
    requires |fat| <= MAX_CLUSTERS
    requires IsChain(fat, cs) && 0 < n <= |cs|
    ensures IsChain(Set(fat, cs[n - 1], END_OF_CHAIN), cs[..n])
  {
    ChainAcyclic(fat, cs);
    var fat' := Set(fat, cs[n - 1], END_OF_CHAIN);
    forall i: nat | i < n ensures LinkAt(fat', cs[..n], i) {
      assert LinkAt(fat, cs, i);
    }
  }

  // ------------------------------------------------------- free clusters

  ghost function FreeClusters(fat: Table): set<nat> {
    set c: nat | c < |fat| && IsFree(fat, c)
  }

  ghost function LinkedClusters(fat: Table): set<nat> {
    set c: nat | c < |fat| && IsDataCluster(fat, c) && Next(fat, c) != 0
  }

  /** The two writes that hang the free cluster `c` behind the last cluster of a chain. */
  lemma GrowValid(fat: Table, cs: seq<nat>, c: nat)
    requires |fat| <= MAX_CLUSTERS
    requires IsChain(fat, cs) && IsFree(fat, c)
    ensures IsChain(Set(fat, c, END_OF_CHAIN), cs)
    ensures var fat' := Set(Set(fat, c, END_OF_CHAIN), cs[|cs| - 1], c);
            && IsChain(fat', cs + [c])
            && AgreeOff(fat, fat', cs + [c])
            && FreeClusters(fat') == FreeClusters(fat) - {c}
  {
    var marked := Set(fat, c, END_OF_CHAIN);
    var last := cs[|cs| - 1];
    var fat' := Set(marked, last, c);
    ChainAcyclic(fat, cs);
    assert last in cs;
    ChainInUse(fat, cs, last);
    if c in cs {
      ChainInUse(fat, cs, c);
    }
    ChainFrame(fat, marked, cs, [c]);
    forall i: nat | i < |cs| + 1 ensures LinkAt(fat', cs + [c], i) {
      if i < |cs| {
        assert LinkAt(fat, cs, i);
        assert cs[i] in cs;
      }
    }
  }

  /** All of `cs` zeroed. */
  ghost predicate Cleared(fat: Table, fat': Table, cs: seq<nat>) {
    && AgreeOff(fat, fat', cs)
    && forall c | 0 <= c < |fat| && c in cs :: fat'[c] == 0
  }

  /** `fat` after the clusters reached from `c` are zeroed, one at a time.  No table content,
      not even a cyclic one, makes the walk endless: a cluster seen twice reads 0. */
  ghost function FreeWalk(fat: Table, c: U32): (r: Table)
    ensures |r| == |fat|
    ensures forall k | 0 <= k < |fat| :: r[k] == fat[k] || (r[k] == 0 && IsDataCluster(fat, k))
    decreases LinkedClusters(fat), if InChain(c) then 1 else 0
  {
    if InChain(c) then
      var fat' := Set(fat, c, 0);
      assert LinkedClusters(fat') <= LinkedClusters(fat);
      assert IsDataCluster(fat, c) && Next(fat, c) != 0 ==> c in LinkedClusters(fat) && c !in LinkedClusters(fat');
      FreeWalk(fat', Next(fat, c))
    else
      fat
  }

  /** On a proper chain the walk zeroes exactly the chain. */
  lemma {:induction false} FreeWalkClearsChain(fat: Table, cs: seq<nat>)
    requires |fat| <= MAX_CLUSTERS
    requires IsChain(fat, cs)
    ensures IsDataCluster(fat, cs[0]) && Cleared(fat, FreeWalk(fat, cs[0]), cs)
    decreases |cs|
  {
    assert LinkAt(fat, cs, 0);
    var fat' := Set(fat, cs[0], 0);
    ChainAcyclic(fat, cs);
    if |cs| > 1 {
      ChainSuffix(fat, cs, 1);
      ChainFrame(fat, fat', cs[1..], [cs[0]]);
      FreeWalkClearsChain(fat', cs[1..]);
      assert cs == [cs[0]] + cs[1..];
    }
  }

  /** The kernel's table: `g_fat` restricted to the mounted volume's clusters. */
  class FatTable {
    const entries: array<U32>

    constructor (table: Table)
      ensures fresh(entries) && entries[..] == table
    {
      entries := new U32[|table|](i requires 0 <= i < |table| => table[i]);
      new;
      assert entries[..] == table;
    }

    function View(): (t: Table)
      reads entries
      ensures |t| == entries.Length
    {
      entries[..]
    }

    method NextCluster(c: U32) returns (n: U32)
      ensures n == Next(View(), c)
    {
      if !(2 <= c < entries.Length) {
        return END_OF_CHAIN;
      }
      n := entries[c] % 0x1000_0000;
    }

    method SetCluster(c: U32, v: U32)
      modifies entries
      ensures View() == Set(old(View()), c, v)
    {
      if !(2 <= c < entries.Length) {
        return;
      }
      entries[c] := v % 0x1000_0000;
    }

    method FindFreeCluster() returns (c: U32)
      requires entries.Length <= MAX_CLUSTERS
      ensures c == 0 ==> FreeClusters(View()) == {}
      ensures c != 0 ==> IsFree(View(), c) && forall k | 2 <= k < c :: !IsFree(View(), k)
    {
      c := 2;
      while c < entries.Length
        invariant 2 <= c <= MAX_CLUSTERS
        invariant forall k | 2 <= k < c :: !IsFree(View(), k)
      {
        if entries[c] == 0 {
          return;
        }
        c := c + 1;
      }
      c := 0;
    }

    method FreeClusterChain(first: U32)
      modifies entries
      ensures View() == FreeWalk(old(View()), first)
    {
      var cluster := first;
      while InChain(cluster)
        invariant FreeWalk(View(), cluster) == FreeWalk(old(View()), first)
        decreases LinkedClusters(View()), if InChain(cluster) then 1 else 0
      {
        ghost var before := View();
        var next := NextCluster(cluster);
        SetCluster(cluster, 0);
        assert LinkedClusters(View()) <= LinkedClusters(before);
        assert IsDataCluster(before, cluster) && next != 0 ==> cluster in LinkedClusters(before);
        cluster := next;
      }
    }

    /** Trims the chain `cs` to `required` clusters; a zero length frees it and clears the head. */
    method TrimClusterChain(first: U32, required: nat, ghost cs: seq<nat>) returns (r: Result, first': U32)
      requires entries.Length <= MAX_CLUSTERS
      requires first == 0 ==> cs == []
      requires first != 0 ==> IsChain(View(), cs) && cs[0] == first
      modifies entries
      ensures r == if required == 0 || required <= |cs| || cs == [] then Ok else IoError
      ensures r != Ok || cs == [] ==> View() == old(View())
      ensures first' == if required == 0 then 0 else first
      ensures r == Ok && cs != [] && required == 0 ==> Cleared(old(View()), View(), cs)
      ensures r == Ok && cs != [] && required > 0 ==>
                && IsChain(View(), cs[..required])
                && AgreeOff(old(View()), View(), cs)
                && (forall c | 0 <= c < entries.Length && c in cs[required..] :: View()[c] == 0)
    {
      first' := first;
      assert cs != [] ==> LinkAt(View(), cs, 0);
      assert required < |cs| ==> LinkAt(View(), cs, required);
      if required == 0 {
        if first >= 2 {
          FreeWalkClearsChain(View(), cs);
          FreeClusterChain(first);
        }
        return Ok, 0;
      }
      if first < 2 {
        return Ok, first;
      }
      var cluster := first;
      var left := required;
      ghost var i := 0;
      while left > 1 && InChain(cluster)
        invariant View() == old(View())
        invariant 1 <= left <= required
        invariant i + left == required
        invariant i <= |cs|
        invariant if i < |cs| then cluster == cs[i] else !InChain(cluster)
      {
        assert LinkAt(View(), cs, i);
        cluster := NextCluster(cluster);
        left := left - 1;
        i := i + 1;
      }
      assert i < |cs| ==> LinkAt(View(), cs, i);
      if !InChain(cluster) {
        return IoError, first;
      }
      var next := NextCluster(cluster);
      CutValid(View(), cs, required);
      SetCluster(cluster, END_OF_CHAIN);
      if InChain(next) {
        TrimTail(old(View()), View(), cs, required);
        ghost var cut := View();
        FreeWalkClearsChain(View(), cs[required..]);
        FreeClusterChain(next);
        ChainFrame(cut, View(), cs[..required], cs[required..]);
      }
      r := Ok;
    }

    method AppendClusterToChain(first: U32, ghost cs: seq<nat>) returns (r: Result, added: U32)
      requires entries.Length <= MAX_CLUSTERS
      requires IsChain(View(), cs) && cs[0] == first
      modifies entries
      ensures r == Ok || r == NoSpace
      ensures r == NoSpace <==> FreeClusters(old(View())) == {}
      ensures r == NoSpace ==> View() == old(View())
      ensures r == Ok ==>
                && IsFree(old(View()), added)
                && IsChain(View(), cs + [added])
                && AgreeOff(old(View()), View(), cs + [added])
                && FreeClusters(View()) == FreeClusters(old(View())) - {added}
    {
      added := FindFreeCluster();
      if added == 0 {
        return NoSpace, 0;
      }
      assert added in FreeClusters(View());
      GrowValid(View(), cs, added);
      SetCluster(added, END_OF_CHAIN);
      ghost var marked := View();
      var cluster := first;
      assert LinkAt(marked, cs, 0);
      var next := NextCluster(cluster);
      ghost var i := 0;
      while InChain(next)
        invariant i < |cs| && cluster == cs[i] && next == Next(marked, cluster)
        invariant View() == marked
        decreases |cs| - i
      {
        assert LinkAt(marked, cs, i);
        assert i + 1 < |cs| ==> LinkAt(marked, cs, i + 1);
        cluster := next;
        next := NextCluster(cluster);
        i := i + 1;
      }
      assert LinkAt(marked, cs, i);
      assert i + 1 < |cs| ==> LinkAt(marked, cs, i + 1);
      SetCluster(cluster, added);
      r := Ok;
    }
  }

  /** After the cut, the part beyond it is still a chain and lies apart from the kept part. */
  lemma TrimTail(fat: Table, cut: Table, cs: seq<nat>, n: nat)
    requires |fat| <= MAX_CLUSTERS
    requires IsChain(fat, cs) && 0 < n < |cs|
    requires cut == Set(fat, cs[n - 1], END_OF_CHAIN)
    ensures IsChain(cut, cs[n..]) && Apart(cs[..n], cs[n..])
  {
    ChainAcyclic(fat, cs);
    ChainSuffix(fat, cs, n);
    ChainFrame(fat, cut, cs[n..], [cs[n - 1]]);
  }
}
