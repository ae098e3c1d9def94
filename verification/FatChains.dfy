/** Cluster chains in a file allocation table (src/fs/fat32.c). */
module FatChains {
  import opened FatLayout

  predicate InRange(fat: seq<nat>, c: nat) { 2 <= c < |fat| }

  /** Which chains a table holds, by first cluster, where in them each used cluster is, and which is the root
      directory's. */
  datatype Layout = Layout(chains: map<nat, seq<nat>>, owner: map<nat, (nat, nat)>, root: nat)

  /** Every cluster but the last points to the next one, and the last is marked as the end. */
  ghost predicate ChainOk(fat: seq<nat>, ch: seq<nat>) {
    && |ch| > 0
    && (forall i :: 0 <= i < |ch| ==> InRange(fat, ch[i]))
    && (forall i :: 0 <= i < |ch| - 1 ==> fat[ch[i]] == ch[i + 1])
    && EOC <= fat[ch[|ch| - 1]]
  }

  ghost predicate HeadOk(fat: seq<nat>, l: Layout, h: nat)
    requires h in l.chains
  {
    ChainOk(fat, l.chains[h]) && l.chains[h][0] == h
  }

  /** A place in a chain belongs to that chain only. */
  ghost predicate PlaceOk(l: Layout, h: nat, i: nat)
    requires h in l.chains && i < |l.chains[h]|
  {
    l.chains[h][i] in l.owner && l.owner[l.chains[h][i]] == (h, i)
  }

  ghost predicate OwnerOk(l: Layout, c: nat)
    requires c in l.owner
  {
    var (h, i) := l.owner[c];
    h in l.chains && i < |l.chains[h]| && l.chains[h][i] == c
  }

  /** The chains end, share no cluster, and hold exactly the clusters the table does not mark free. */
  ghost predicate LayoutOk(fat: seq<nat>, l: Layout) {
    && 2 <= |fat| <= EOC
    && (forall h {:trigger HeadOk(fat, l, h)} :: h in l.chains ==> HeadOk(fat, l, h))
    && (forall h, i {:trigger PlaceOk(l, h, i)} :: h in l.chains && 0 <= i < |l.chains[h]| ==> PlaceOk(l, h, i))
    && (forall c {:trigger OwnerOk(l, c)} :: c in l.owner ==> InRange(fat, c) && OwnerOk(l, c))
    && (forall c: nat :: InRange(fat, c) ==> (c in l.owner <==> fat[c] != 0))
  }

  /** Chains share no cluster. */
  lemma ChainsDisjoint(fat: seq<nat>, l: Layout, h: nat, i: nat, h': nat, i': nat)
    requires LayoutOk(fat, l) && h in l.chains && i < |l.chains[h]| && h' in l.chains && i' < |l.chains[h']|
    requires (h, i) != (h', i')
    ensures l.chains[h][i] != l.chains[h'][i']
  {
    assert PlaceOk(l, h, i) && PlaceOk(l, h', i');
  }

  /** A chain repeats no cluster, so following it from its start reaches the end mark. */
  lemma ChainAcyclic(fat: seq<nat>, l: Layout, h: nat, i: nat, j: nat)
    requires LayoutOk(fat, l) && h in l.chains && i < j < |l.chains[h]|
    ensures l.chains[h][i] != l.chains[h][j]
  {
    ChainsDisjoint(fat, l, h, i, h, j);
  }

  ghost function FreeClusters(fat: seq<nat>): set<nat> { set c: nat | 2 <= c < |fat| && fat[c] == 0 }

  ghost function AllClusters(n: nat): (r: set<nat>)
    requires n >= 2
    ensures |r| == n - 2
    ensures forall c: nat :: c in r <==> 2 <= c < n
  {
    if n == 2 then {} else AllClusters(n - 1) + {n - 1}
  }

  /** The clusters of one chain. */
  ghost function ClustersOf(l: Layout, h: nat): set<nat> { if h in l.chains then Elements(l.chains[h]) else {} }

  ghost function Elements(ch: seq<nat>): set<nat> { set c | c in ch }

  /** How many clusters the chains that start at these heads have. */
  ghost function Lengths(l: Layout, heads: set<nat>): nat
    requires heads <= l.chains.Keys
  {
    if heads == {} then 0 else
      var h :| h in heads;
      |l.chains[h]| + Lengths(l, heads - {h})
  }

  lemma {:induction false} DistinctCard(ch: seq<nat>)
    requires forall i, j :: 0 <= i < j < |ch| ==> ch[i] != ch[j]
    ensures |Elements(ch)| == |ch|
  {
    if ch != [] {
      var n := |ch| - 1;
      DistinctCard(ch[..n]);
      assert Elements(ch) == Elements(ch[..n]) + {ch[n]};
      assert ch[n] !in ch[..n];
    }
  }

  ghost function Under(l: Layout, heads: set<nat>): set<nat> { set c | c in l.owner && l.owner[c].0 in heads }

  lemma {:induction false} LengthsCount(fat: seq<nat>, l: Layout, heads: set<nat>)
    requires LayoutOk(fat, l) && heads <= l.chains.Keys
    ensures |Under(l, heads)| == Lengths(l, heads)
    decreases heads
  {
    if heads == {} {
      assert Under(l, heads) == {};
    } else {
      var h :| h in heads && Lengths(l, heads) == |l.chains[h]| + Lengths(l, heads - {h});
      LengthsCount(fat, l, heads - {h});
      forall i, j | 0 <= i < j < |l.chains[h]|
        ensures l.chains[h][i] != l.chains[h][j]
      {
        ChainAcyclic(fat, l, h, i, j);
      }
      DistinctCard(l.chains[h]);
      OneUnder(fat, l, h);
      assert Under(l, heads) == Under(l, heads - {h}) + ClustersOf(l, h);
      assert Under(l, heads - {h}) !! ClustersOf(l, h);
    }
  }

  /** A cluster belongs to a chain exactly when it is on it. */
  lemma OneUnder(fat: seq<nat>, l: Layout, h: nat)
    requires LayoutOk(fat, l) && h in l.chains
    ensures forall c: nat :: c in ClustersOf(l, h) <==> c in l.owner && l.owner[c].0 == h
  {
    forall c: nat ensures c in ClustersOf(l, h) <==> c in l.owner && l.owner[c].0 == h {
      if c in l.chains[h] {
        var i :| 0 <= i < |l.chains[h]| && l.chains[h][i] == c;
        assert PlaceOk(l, h, i);
      }
      if c in l.owner { assert OwnerOk(l, c); }
    }
  }

  /** Free clusters and clusters on chains add up to the volume. */
  lemma ClustersSplit(fat: seq<nat>, l: Layout)
    requires LayoutOk(fat, l)
    ensures |FreeClusters(fat)| + Lengths(l, l.chains.Keys) == |fat| - 2
  {
    LengthsCount(fat, l, l.chains.Keys);
    forall c | c in l.owner ensures l.owner[c].0 in l.chains { assert OwnerOk(l, c); }
    assert Under(l, l.chains.Keys) == l.owner.Keys;
    forall c | c in l.owner ensures c in AllClusters(|fat|) && c !in FreeClusters(fat) { assert OwnerOk(l, c); }
    forall c | c in AllClusters(|fat|) ensures c in FreeClusters(fat) || c in l.owner { assert InRange(fat, c); }
    assert AllClusters(|fat|) == FreeClusters(fat) + l.owner.Keys;
    assert FreeClusters(fat) !! l.owner.Keys;
    assert |l.owner| == |l.owner.Keys|;
  }

  lemma HeadOwned(fat: seq<nat>, l: Layout, h: nat)
    requires LayoutOk(fat, l)
    ensures h in l.chains ==>
      h in l.owner && l.owner[h] == (h, 0) && InRange(fat, h) && |l.chains[h]| > 0 && l.chains[h][0] == h
  {
    if h in l.chains { assert HeadOk(fat, l, h) && PlaceOk(l, h, 0); }
  }

  lemma InnerNotHead(fat: seq<nat>, l: Layout, h: nat, i: nat)
    requires LayoutOk(fat, l) && h in l.chains && 0 < i < |l.chains[h]|
    ensures l.chains[h][i] !in l.chains
  {
    HeadOwned(fat, l, l.chains[h][i]);
    assert PlaceOk(l, h, i);
  }

  /** One chain, if any, went and another came, and chain `d` may have grown; every other chain is as before. */
  ghost predicate Rechained(l: Layout, l': Layout, d: nat, h: nat, first: nat) {
    && l'.root == l.root && l'.chains.Keys == (l.chains.Keys - {h}) + (if first == 0 then {} else {first})
    && (first in l.chains ==> first == h)
    && (forall x :: x in l.chains && x != h ==>
          x in l'.chains && if x == d then l.chains[x] <= l'.chains[x] else l'.chains[x] == l.chains[x])
  }

  /** The free clusters are those without an owner. */
  lemma FreeAre(fat: seq<nat>, l: Layout)
    requires LayoutOk(fat, l)
    ensures forall c: nat :: c in FreeClusters(fat) <==> InRange(fat, c) && c !in l.owner
  {
  }

  lemma FreeIsUnowned(fat: seq<nat>, l: Layout, a: nat, b: nat, c: nat)
    requires LayoutOk(fat, l)
    ensures c in FreeClusters(fat) + ClustersOf(l, a) + ClustersOf(l, b) <==>
      InRange(fat, c) && (c !in l.owner || l.owner[c].0 == a || l.owner[c].0 == b)
  {
    if a in l.chains { OneUnder(fat, l, a); }
    if b in l.chains { OneUnder(fat, l, b); }
    if c in l.owner { assert OwnerOk(l, c); }
  }

  /** What went is free now, but for what the new chain and the grown one took. */
  lemma Reclaimed(fat: seq<nat>, l: Layout, fat': seq<nat>, l': Layout, d: nat, h: nat, first: nat)
    requires LayoutOk(fat, l) && LayoutOk(fat', l') && |fat'| == |fat| && Rechained(l, l', d, h, first)
    ensures FreeClusters(fat') + ClustersOf(l', first) + ClustersOf(l', d) ==
      FreeClusters(fat) + ClustersOf(l, h) + ClustersOf(l, d)
  {
    forall c: nat ensures c in FreeClusters(fat') + ClustersOf(l', first) + ClustersOf(l', d) <==>
                          c in FreeClusters(fat) + ClustersOf(l, h) + ClustersOf(l, d)
    {
      FreeIsUnowned(fat, l, h, d, c);
      FreeIsUnowned(fat', l', first, d, c);
      SameOther(fat, l, fat', l', d, h, first, c);
    }
  }

  lemma SameOther(fat: seq<nat>, l: Layout, fat': seq<nat>, l': Layout, d: nat, h: nat, first: nat, c: nat)
    requires LayoutOk(fat, l) && LayoutOk(fat', l') && Rechained(l, l', d, h, first)
    ensures c in l.owner && l.owner[c].0 != h && l.owner[c].0 != d <==>
      c in l'.owner && l'.owner[c].0 != first && l'.owner[c].0 != d
  {
    if c in l.owner && l.owner[c].0 != h && l.owner[c].0 != d {
      var (x, i) := l.owner[c];
      assert OwnerOk(l, c);
      assert PlaceOk(l', x, i);
    }
    if c in l'.owner && l'.owner[c].0 != first && l'.owner[c].0 != d {
      var (x, i) := l'.owner[c];
      assert OwnerOk(l', c);
      assert PlaceOk(l, x, i);
    }
  }

  // ---- Taking, linking and freeing clusters ----

  function Taken(l: Layout, c: nat): Layout {
    Layout(l.chains[c := [c]], l.owner[c := (c, 0)], l.root)
  }

  /** A free cluster marked as an end is a chain of its own. */
  lemma TakeKeeps(fat: seq<nat>, l: Layout, c: nat)
    requires LayoutOk(fat, l) && InRange(fat, c) && fat[c] == 0
    ensures c !in l.owner && c !in l.chains && LayoutOk(fat[c := EOC], Taken(l, c))
  {
    var fat', l' := fat[c := EOC], Taken(l, c);
    HeadOwned(fat, l, c);
    forall h | h in l'.chains ensures HeadOk(fat', l', h) {
      if h != c { OthersKept(fat, l, h, c, EOC); }
    }
    forall h, i | h in l'.chains && 0 <= i < |l'.chains[h]| ensures PlaceOk(l', h, i) {
      if h != c { assert PlaceOk(l, h, i); }
    }
    forall x | x in l'.owner ensures InRange(fat', x) && OwnerOk(l', x) {
      if x != c { assert OwnerOk(l, x); }
    }
    forall x: nat | InRange(fat', x) ensures x in l'.owner <==> fat'[x] != 0 { assert InRange(fat, x); }
  }

  /** A chain that does not hold `c` does not notice a change of `c`'s entry. */
  lemma OthersKept(fat: seq<nat>, l: Layout, h: nat, c: nat, value: nat)
    requires LayoutOk(fat, l) && h in l.chains && InRange(fat, c)
    requires forall i :: 0 <= i < |l.chains[h]| ==> l.chains[h][i] != c || c !in l.owner
    ensures ChainOk(fat[c := value], l.chains[h]) && l.chains[h][0] == h
  {
    assert HeadOk(fat, l, h);
    forall i | 0 <= i < |l.chains[h]| ensures l.chains[h][i] != c { assert PlaceOk(l, h, i); }
  }

  function Linked(l: Layout, h: nat, c: nat): Layout
    requires h in l.chains
  {
    Layout((l.chains - {c})[h := l.chains[h] + [c]], l.owner[c := (h, |l.chains[h]|)], l.root)
  }

  /** Pointing a chain's last cluster to a chain of one makes that cluster the new last one. */
  lemma LinkKeeps(fat: seq<nat>, l: Layout, h: nat, c: nat)
    requires LayoutOk(fat, l) && h in l.chains && c in l.chains && l.chains[c] == [c] && h != c
    ensures |l.chains[h]| > 0 && InRange(fat, l.chains[h][|l.chains[h]| - 1])
    ensures LayoutOk(fat[l.chains[h][|l.chains[h]| - 1] := c], Linked(l, h, c))
  {
    hide HeadOk, PlaceOk, OwnerOk, Linked;
    LinkLast(fat, l, h, c);
    var p := l.chains[h][|l.chains[h]| - 1];
    var fat', l' := fat[p := c], Linked(l, h, c);
    forall x | x in l'.chains ensures HeadOk(fat', l', x) { LinkHead(fat, l, h, c, x); }
    forall x, i | x in l'.chains && 0 <= i < |l'.chains[x]| ensures PlaceOk(l', x, i) { LinkPlace(fat, l, h, c, x, i); }
    forall x | x in l'.owner ensures InRange(fat', x) && OwnerOk(l', x) { LinkOwner(fat, l, h, c, x); }
    forall x: nat | InRange(fat', x) ensures x in l'.owner <==> fat'[x] != 0 { LinkUsed(fat, l, h, c, x); }
  }

  lemma LinkLast(fat: seq<nat>, l: Layout, h: nat, c: nat)
    requires LayoutOk(fat, l) && h in l.chains && c in l.chains && l.chains[c] == [c] && h != c
    ensures |l.chains[h]| > 0 && InRange(fat, l.chains[h][|l.chains[h]| - 1]) && InRange(fat, c)
    ensures l.chains[h][|l.chains[h]| - 1] != c && c in l.owner
  {
    assert HeadOk(fat, l, h) && HeadOk(fat, l, c);
    assert PlaceOk(l, h, |l.chains[h]| - 1) && PlaceOk(l, c, 0);
  }

  lemma LinkHead(fat: seq<nat>, l: Layout, h: nat, c: nat, x: nat)
    requires LayoutOk(fat, l) && h in l.chains && c in l.chains && l.chains[c] == [c] && h != c && |l.chains[h]| > 0
    requires InRange(fat, l.chains[h][|l.chains[h]| - 1]) && x in Linked(l, h, c).chains
    ensures HeadOk(fat[l.chains[h][|l.chains[h]| - 1] := c], Linked(l, h, c), x)
  {
    var ch, n := l.chains[h], |l.chains[h]|;
    assert HeadOk(fat, l, h) && HeadOk(fat, l, c);
    assert PlaceOk(l, h, n - 1) && PlaceOk(l, c, 0);
    if x == h {
      forall i | 0 <= i < n - 1 ensures ch[i] != ch[n - 1] { assert PlaceOk(l, h, i); }
    } else {
      NotLast(fat, l, x, h);
      OthersKept(fat, l, x, ch[n - 1], c);
    }
  }

  lemma LinkPlace(fat: seq<nat>, l: Layout, h: nat, c: nat, x: nat, i: nat)
    requires LayoutOk(fat, l) && h in l.chains && c in l.chains && l.chains[c] == [c] && h != c
    requires x in Linked(l, h, c).chains && i < |Linked(l, h, c).chains[x]|
    ensures PlaceOk(Linked(l, h, c), x, i)
  {
    assert PlaceOk(l, c, 0);
    if x != h || i < |l.chains[h]| { assert PlaceOk(l, x, i); }
  }

  lemma LinkOwner(fat: seq<nat>, l: Layout, h: nat, c: nat, x: nat)
    requires LayoutOk(fat, l) && h in l.chains && c in l.chains && l.chains[c] == [c] && h != c
    requires x in Linked(l, h, c).owner
    ensures InRange(fat, x) && OwnerOk(Linked(l, h, c), x)
  {
    HeadOwned(fat, l, c);
    assert PlaceOk(l, c, 0);
    if x != c {
      assert OwnerOk(l, x);
      assert l.owner[x].0 != c;
    }
  }

  lemma LinkUsed(fat: seq<nat>, l: Layout, h: nat, c: nat, x: nat)
    requires LayoutOk(fat, l) && h in l.chains && c in l.chains && l.chains[c] == [c] && h != c && |l.chains[h]| > 0
    requires InRange(fat, l.chains[h][|l.chains[h]| - 1]) && InRange(fat, x) && InRange(fat, c)
    ensures x in Linked(l, h, c).owner <==> fat[l.chains[h][|l.chains[h]| - 1] := c][x] != 0
  {
    assert PlaceOk(l, c, 0) && PlaceOk(l, h, |l.chains[h]| - 1);
  }

  lemma NotLast(fat: seq<nat>, l: Layout, x: nat, h: nat)
    requires LayoutOk(fat, l) && x in l.chains && h in l.chains && x != h && |l.chains[h]| > 0
    ensures forall i :: 0 <= i < |l.chains[x]| ==> l.chains[x][i] != l.chains[h][|l.chains[h]| - 1]
  {
    assert PlaceOk(l, h, |l.chains[h]| - 1);
    forall i | 0 <= i < |l.chains[x]|
      ensures l.chains[x][i] != l.chains[h][|l.chains[h]| - 1]
    {
      assert PlaceOk(l, x, i);
    }
  }

  /** The layout once a chain's first cluster is freed: the rest is a chain of its own. */
  function Beheaded(l: Layout, h: nat): Layout
    requires h in l.chains && |l.chains[h]| > 0
  {
    var ch := l.chains[h];
    var owner := map c | c in l.owner && c != h ::
      if l.owner[c].0 == h && |ch| > 1 && l.owner[c].1 > 0 then (ch[1], l.owner[c].1 - 1) else l.owner[c];
    if |ch| == 1 then Layout(l.chains - {h}, owner, l.root)
    else Layout((l.chains - {h})[ch[1] := ch[1..]], owner, l.root)
  }

  lemma BeheadKeeps(fat: seq<nat>, l: Layout, h: nat)
    requires LayoutOk(fat, l) && h in l.chains
    ensures |l.chains[h]| > 0 && InRange(fat, h) && LayoutOk(fat[h := 0], Beheaded(l, h))
  {
    hide Beheaded, HeadOk, PlaceOk, OwnerOk;
    HeadOwned(fat, l, h);
    var fat', l' := fat[h := 0], Beheaded(l, h);
    forall x | x in l'.chains ensures HeadOk(fat', l', x) {
      BeheadHead(fat, l, h, x);
    }
    forall x, i | x in l'.chains && 0 <= i < |l'.chains[x]| ensures PlaceOk(l', x, i) {
      BeheadPlace(fat, l, h, x, i);
    }
    forall c | c in l'.owner ensures InRange(fat', c) && OwnerOk(l', c) {
      BeheadOwner(fat, l, h, c);
    }
    forall c: nat | InRange(fat', c) ensures c in l'.owner <==> fat'[c] != 0 {
      BeheadFree(fat, l, h, c);
    }
  }

  lemma BeheadFree(fat: seq<nat>, l: Layout, h: nat, c: nat)
    requires LayoutOk(fat, l) && h in l.chains && |l.chains[h]| > 0 && InRange(fat, h) && InRange(fat, c)
    ensures c in Beheaded(l, h).owner <==> fat[h := 0][c] != 0
  {
    assert c in l.owner <==> fat[c] != 0;
  }

  lemma BeheadHead(fat: seq<nat>, l: Layout, h: nat, x: nat)
    requires LayoutOk(fat, l) && h in l.chains && |l.chains[h]| > 0 && InRange(fat, h) && x in Beheaded(l, h).chains
    ensures HeadOk(fat[h := 0], Beheaded(l, h), x)
  {
    var ch := l.chains[h];
    assert HeadOk(fat, l, h);
    if |ch| > 1 && x == ch[1] {
      forall i | 1 <= i < |ch| ensures ch[i] != h { assert PlaceOk(l, h, 0) && PlaceOk(l, h, i); }
      assert forall i :: 0 <= i < |ch| - 1 ==> ch[1..][i] == ch[i + 1];
    } else {
      forall i | 0 <= i < |l.chains[x]| ensures l.chains[x][i] != h { assert PlaceOk(l, x, i) && PlaceOk(l, h, 0); }
      OthersKept(fat, l, x, h, 0);
    }
  }

  lemma BeheadPlace(fat: seq<nat>, l: Layout, h: nat, x: nat, i: nat)
    requires LayoutOk(fat, l) && h in l.chains && |l.chains[h]| > 0 && l.chains[h][0] == h
    requires x in Beheaded(l, h).chains && i < |Beheaded(l, h).chains[x]|
    ensures PlaceOk(Beheaded(l, h), x, i)
  {
    var ch := l.chains[h];
    assert PlaceOk(l, h, 0);
    if |ch| > 1 && x == ch[1] {
      assert PlaceOk(l, h, i + 1);
    } else {
      assert PlaceOk(l, x, i);
    }
  }

  lemma BeheadOwner(fat: seq<nat>, l: Layout, h: nat, c: nat)
    requires LayoutOk(fat, l) && h in l.chains && |l.chains[h]| > 0 && l.chains[h][0] == h
    requires c in Beheaded(l, h).owner
    ensures InRange(fat, c) && OwnerOk(Beheaded(l, h), c)
  {
    var ch := l.chains[h];
    assert OwnerOk(l, c);
    if |ch| > 1 { InnerNotHead(fat, l, h, 1); }
  }

  // ---- Freeing a whole chain ----

  /** Every entry is free, an end mark, or names a cluster of the volume. */
  ghost predicate LinksOk(fat: seq<nat>) {
    2 <= |fat| <= EOC && forall c: nat {:trigger fat[c]} :: InRange(fat, c) ==> fat[c] < |fat| || EOC <= fat[c]
  }

  function InUse(fat: seq<nat>, n: nat): nat
    requires n <= |fat|
  {
    if n == 0 then 0 else InUse(fat, n - 1) + if fat[n - 1] == 0 then 0 else 1
  }

  lemma {:induction false} InUseClears(fat: seq<nat>, c: nat, n: nat)
    requires c < |fat| && n <= |fat|
    ensures InUse(fat[c := 0], n) == InUse(fat, n) - if c < n && fat[c] != 0 then 1 else 0
    decreases n
  {
    if n > 0 { InUseClears(fat, c, n - 1); }
  }

  /** The table after following links from `c` and clearing each entry on the way. On any table the walk ends,
      even along a cycle, because it clears a used entry at every step but the last. */
  ghost function Freed(fat: seq<nat>, c: nat): (r: seq<nat>)
    requires LinksOk(fat) && (c < |fat| || EOC <= c)
    ensures LinksOk(r) && |r| == |fat|
    decreases InUse(fat, |fat|), if InRange(fat, c) then 1 else 0
  {
    if InRange(fat, c) then
      InUseClears(fat, c, |fat|);
      Freed(fat[c := 0], fat[c])
    else fat
  }

  /** Entries are only ever cleared, and the first one is. */
  lemma {:induction false} FreedClears(fat: seq<nat>, c: nat, x: nat)
    requires LinksOk(fat) && (c < |fat| || EOC <= c) && x < |fat|
    ensures Freed(fat, c)[x] == fat[x] || Freed(fat, c)[x] == 0
    ensures InRange(fat, c) ==> Freed(fat, c)[c] == 0
    decreases InUse(fat, |fat|), if InRange(fat, c) then 1 else 0
  {
    if InRange(fat, c) {
      InUseClears(fat, c, |fat|);
      FreedClears(fat[c := 0], fat[c], x);
      FreedClears(fat[c := 0], fat[c], c);
    }
  }

  function Removed(l: Layout, h: nat): Layout {
    Layout(l.chains - {h}, map c | c in l.owner && l.owner[c].0 != h :: l.owner[c], l.root)
  }

  lemma LayoutLinks(fat: seq<nat>, l: Layout)
    requires LayoutOk(fat, l)
    ensures LinksOk(fat)
  {
    forall c: nat | InRange(fat, c) ensures fat[c] < |fat| || EOC <= fat[c] {
      if fat[c] != 0 {
        assert OwnerOk(l, c);
        var (h, i) := l.owner[c];
        assert HeadOk(fat, l, h);
        if i < |l.chains[h]| - 1 { assert InRange(fat, l.chains[h][i + 1]); }
      }
    }
  }

  /** Freeing a chain removes it and leaves every other chain and table entry. */
  lemma {:induction false} FreedChain(fat: seq<nat>, l: Layout, h: nat)
    requires LayoutOk(fat, l) && h in l.chains && LinksOk(fat) && h < |fat|
    ensures LayoutOk(Freed(fat, h), Removed(l, h))
    ensures forall c: nat :: c < |fat| && (c !in l.owner || l.owner[c].0 != h) ==> Freed(fat, h)[c] == fat[c]
    decreases |l.chains[h]|
  {
    var ch := l.chains[h];
    HeadOwned(fat, l, h);
    assert HeadOk(fat, l, h);
    BeheadKeeps(fat, l, h);
    var fat', l' := fat[h := 0], Beheaded(l, h);
    if |ch| > 1 {
      InnerNotHead(fat, l, h, 1);
      assert InRange(fat, ch[1]);
      FreedChain(fat', l', ch[1]);
      RemovedTail(fat, l, h);
      forall c: nat | c < |fat| && (c !in l.owner || l.owner[c].0 != h) ensures Freed(fat, h)[c] == fat[c] {
        assert c !in l'.owner || l'.owner[c].0 != ch[1] by { NotTail(fat, l, h, c); }
      }
    } else {
      LoneRemoved(fat, l, h);
    }
  }

  lemma NotTail(fat: seq<nat>, l: Layout, h: nat, c: nat)
    requires LayoutOk(fat, l) && h in l.chains && |l.chains[h]| > 1 && (c !in l.owner || l.owner[c].0 != h)
    ensures c !in Beheaded(l, h).owner || Beheaded(l, h).owner[c].0 != l.chains[h][1]
  {
    InnerNotHead(fat, l, h, 1);
    if c in l.owner { assert OwnerOk(l, c); }
  }

  lemma RemovedTail(fat: seq<nat>, l: Layout, h: nat)
    requires LayoutOk(fat, l) && h in l.chains && |l.chains[h]| > 1
    ensures Removed(Beheaded(l, h), l.chains[h][1]) == Removed(l, h)
  {
    var l', t := Beheaded(l, h), l.chains[h][1];
    InnerNotHead(fat, l, h, 1);
    HeadOwned(fat, l, h);
    assert l'.chains - {t} == l.chains - {h};
    forall c | c in l.owner ensures l.owner[c].0 != t { assert OwnerOk(l, c); }
    forall c | c in l.owner && l.owner[c].0 == h && c != h ensures l.owner[c].1 > 0 { assert OwnerOk(l, c); }
    assert Removed(l', t).owner == Removed(l, h).owner;
  }

  lemma LoneRemoved(fat: seq<nat>, l: Layout, h: nat)
    requires LayoutOk(fat, l) && h in l.chains && |l.chains[h]| == 1
    ensures Beheaded(l, h) == Removed(l, h)
  {
    HeadOwned(fat, l, h);
    forall c | c in l.owner && l.owner[c].0 == h ensures c == h { assert OwnerOk(l, c); }
    assert Beheaded(l, h).owner == Removed(l, h).owner;
  }

  // ---- What a chain holds ----

  /** The clusters of a chain are clusters of the volume. */
  ghost predicate InData(data: seq<seq<nat>>, ch: seq<nat>) {
    forall i :: 0 <= i < |ch| ==> 2 <= ch[i] < |data| + 2
  }

  function Join(data: seq<seq<nat>>, ch: seq<nat>): seq<nat>
    requires forall i :: 0 <= i < |ch| ==> 2 <= ch[i] < |data| + 2
  {
    if ch == [] then [] else Join(data, ch[..|ch| - 1]) + data[ch[|ch| - 1] - 2]
  }

  lemma {:induction false} JoinSame(data: seq<seq<nat>>, data': seq<seq<nat>>, ch: seq<nat>)
    requires |data'| == |data|
    requires forall i :: 0 <= i < |ch| ==> 2 <= ch[i] < |data| + 2 && data'[ch[i] - 2] == data[ch[i] - 2]
    ensures Join(data', ch) == Join(data, ch)
  {
    if ch != [] { JoinSame(data, data', ch[..|ch| - 1]); }
  }

  lemma JoinNext(data: seq<seq<nat>>, ch: seq<nat>, c: nat)
    requires 2 <= c < |data| + 2 && forall i :: 0 <= i < |ch| ==> 2 <= ch[i] < |data| + 2
    ensures Join(data, ch + [c]) == Join(data, ch) + data[c - 2]
  {
    assert (ch + [c])[..|ch|] == ch;
  }

  lemma {:induction false} JoinPrefix(data: seq<seq<nat>>, ch: seq<nat>, j: nat)
    requires j <= |ch| && forall i :: 0 <= i < |ch| ==> 2 <= ch[i] < |data| + 2
    ensures Join(data, ch[..j]) <= Join(data, ch)
    decreases |ch|
  {
    if j < |ch| {
      JoinPrefix(data, ch[..|ch| - 1], j);
      assert ch[..|ch| - 1][..j] == ch[..j];
    } else {
      assert ch[..j] == ch;
    }
  }

  /** Where following a chain leads. */
  lemma ChainStep(fat: seq<nat>, l: Layout, h: nat, j: nat)
    requires LayoutOk(fat, l) && h in l.chains && j < |l.chains[h]|
    ensures InRange(fat, l.chains[h][j]) && |fat| <= EOC
    ensures j + 1 < |l.chains[h]| ==> fat[l.chains[h][j]] == l.chains[h][j + 1]
    ensures j + 1 == |l.chains[h]| ==> fat[l.chains[h][j]] >= EOC
  {
    assert HeadOk(fat, l, h);
  }

  lemma ChainInRange(fat: seq<nat>, l: Layout, h: nat)
    requires LayoutOk(fat, l) && h in l.chains
    ensures |l.chains[h]| > 0 && l.chains[h][0] == h
    ensures forall i :: 0 <= i < |l.chains[h]| ==> 2 <= l.chains[h][i] < |fat|
  {
    assert HeadOk(fat, l, h);
  }

  // ---- A table has one layout ----

  /** A head in one layout is a head in every other. */
  lemma SameHead(fat: seq<nat>, l: Layout, m: Layout, h: nat)
    requires LayoutOk(fat, l) && LayoutOk(fat, m) && h in l.chains
    ensures h in m.chains
  {
    assert HeadOk(fat, l, h) && PlaceOk(l, h, 0);
    assert OwnerOk(m, h);
    var (g, i) := m.owner[h];
    assert HeadOk(fat, m, g);
    if i > 0 {
      assert PlaceOk(m, g, i - 1);
      LinkedFrom(fat, l, m.chains[g][i - 1]);
    }
  }

  /** What an entry links to is not the first cluster of a chain. */
  lemma LinkedFrom(fat: seq<nat>, l: Layout, p: nat)
    requires LayoutOk(fat, l) && InRange(fat, p) && 0 < fat[p] < EOC
    ensures fat[p] in l.owner && l.owner[fat[p]].1 > 0
  {
    assert OwnerOk(l, p);
    var (g, j) := l.owner[p];
    assert HeadOk(fat, l, g) && PlaceOk(l, g, j);
    assert j < |l.chains[g]| - 1;
    assert PlaceOk(l, g, j + 1);
  }

  lemma {:induction false} SameChain(fat: seq<nat>, l: Layout, m: Layout, h: nat, n: nat)
    requires LayoutOk(fat, l) && LayoutOk(fat, m) && h in l.chains && h in m.chains && n <= |l.chains[h]|
    ensures n <= |m.chains[h]| && l.chains[h][..n] == m.chains[h][..n]
  {
    assert HeadOk(fat, l, h) && HeadOk(fat, m, h);
    if n > 1 {
      SameChain(fat, l, m, h, n - 1);
      assert l.chains[h][n - 2] == l.chains[h][..n - 1][n - 2] == m.chains[h][..n - 1][n - 2] == m.chains[h][n - 2];
      assert fat[m.chains[h][n - 2]] == l.chains[h][n - 1] < EOC;
    }
  }

  /** The chains a table holds are determined by it. */
  lemma OneLayout(fat: seq<nat>, l: Layout, m: Layout)
    requires LayoutOk(fat, l) && LayoutOk(fat, m)
    ensures l.chains == m.chains
  {
    forall h | h in l.chains ensures h in m.chains && l.chains[h] == m.chains[h] {
      SameHead(fat, l, m, h);
      SameChain(fat, l, m, h, |l.chains[h]|);
      SameChain(fat, m, l, h, |m.chains[h]|);
    }
    forall h | h in m.chains ensures h in l.chains { SameHead(fat, m, l, h); }
  }
}
