/**
  The NAT2.5 database as the driver keeps it: sixteen hash chains threaded through entries
  that are allocated and freed one by one, where every entry also knows the cell that points
  at it.  Memory is explicit: `mem` holds the entries that are currently allocated, and
  following a pointer to an entry that is not there is not possible.
 */
module Nat25 {
  import opened Nat25Spec

  type Ref = nat

  datatype Ptr = Null | To(ref: Ref)

  /** A cell that can point at an entry: a bucket of the table, or the `next_hash` field of an
      entry.  `Detached` is the null back-pointer. */
  datatype Cell = Detached | Bucket(i: nat) | NextOf(ref: Ref)

  datatype Entry<A> = Entry(addr: A, next: Ptr, pprev: Cell, mac: Mac, seen: nat, uses: int)
  {
    function Rec(): Record { Record(mac, seen, uses) }
  }

  type Memory<A> = map<Ref, Entry<A>>

  /** The bucket of an address.  The table works with any such function; the driver uses
      `__nat25_network_hash`. */
  type Hasher<!A> = A -> nat

  // --- Chains -----------------------------------------------------------------------------

  function Nth(c: seq<Ref>, k: nat): Ptr {
    if k < |c| then To(c[k]) else Null
  }

  function CellOf(c: seq<Ref>, k: nat, i: nat): Cell
    requires k <= |c|
  {
    if k == 0 then Bucket(i) else NextOf(c[k - 1])
  }

  ghost predicate NodeOk<A(!new)>(mem: Memory<A>, c: seq<Ref>, k: nat, i: nat)
    requires k < |c|
  {
    c[k] in mem && mem[c[k]].next == Nth(c, k + 1) && mem[c[k]].pprev == CellOf(c, k, i)
  }

  ghost predicate Distinct(c: seq<Ref>) {
    forall j, k :: 0 <= j < k < |c| ==> c[j] != c[k]
  }

  /** `c` is the chain of bucket `i`: it starts at the bucket, follows the `next_hash` fields
      to null without a repetition, and every entry's back-pointer names the one cell that
      points at it. */
  ghost predicate ChainOk<A(!new)>(mem: Memory<A>, head: Ptr, i: nat, c: seq<Ref>) {
    && head == Nth(c, 0)
    && (forall k :: 0 <= k < |c| ==> NodeOk(mem, c, k, i))
    && Distinct(c)
  }

  function Without(c: seq<Ref>, k: nat): seq<Ref>
    requires k < |c|
  {
    c[..k] + c[k + 1..]
  }

  // --- The two pointer operations, on memory as a value ---------------------------------------

  /** `__network_hash_link` on memory: `e` becomes the head of the chain that starts at `head`. */
  function LinkMem<A(==, !new)>(mem: Memory<A>, head: Ptr, r: Ref, i: nat): Memory<A>
    requires r in mem && (head.To? ==> head.ref in mem)
  {
    var m := mem[r := mem[r].(next := head, pprev := Bucket(i))];
    if head.To? then m[head.ref := m[head.ref].(pprev := NextOf(r))] else m
  }

  /** What the cell that points at `r` is made to point at instead. */
  function UnlinkMem<A(==, !new)>(mem: Memory<A>, r: Ref): Memory<A>
    requires r in mem
    requires mem[r].pprev.NextOf? ==> mem[r].pprev.ref in mem
    requires mem[r].next.To? ==> mem[r].next.ref in mem
  {
    var e := mem[r];
    var m := if e.pprev.NextOf? then mem[e.pprev.ref := mem[e.pprev.ref].(next := e.next)] else mem;
    var m' := if e.next.To? then m[e.next.ref := m[e.next.ref].(pprev := e.pprev)] else m;
    m'[r := m'[r].(next := Null, pprev := Detached)]
  }

  lemma LinkKeepsChain<A(!new)>(mem: Memory<A>, head: Ptr, r: Ref, i: nat, c: seq<Ref>)
    requires ChainOk(mem, head, i, c) && r in mem && r !in c
    ensures head.To? ==> head.ref in mem
    ensures ChainOk(LinkMem(mem, head, r, i), To(r), i, [r] + c)
  {
    if c != [] { assert NodeOk(mem, c, 0, i); }
    var m := LinkMem(mem, head, r, i);
    var d := [r] + c;
    forall k | 0 <= k < |d| ensures NodeOk(m, d, k, i) {
      if k > 0 {
        assert d[k] == c[k - 1] && NodeOk(mem, c, k - 1, i);
      }
    }
  }

  lemma UnlinkKeepsChain<A(!new)>(mem: Memory<A>, head: Ptr, r: Ref, i: nat, c: seq<Ref>, k: nat)
    requires ChainOk(mem, head, i, c) && k < |c| && c[k] == r
    ensures r in mem && (mem[r].pprev.NextOf? ==> mem[r].pprev.ref in mem)
    ensures (mem[r].next.To? ==> mem[r].next.ref in mem)
    ensures ChainOk(UnlinkMem(mem, r), if k == 0 then mem[r].next else head, i, Without(c, k))
  {
    assert NodeOk(mem, c, k, i);
    if k > 0 { assert NodeOk(mem, c, k - 1, i); }
    if k + 1 < |c| { assert NodeOk(mem, c, k + 1, i); }
    var m := UnlinkMem(mem, r);
    var d := Without(c, k);
    forall j | 0 <= j < |d| ensures NodeOk(m, d, j, i) {
      if j < k {
        assert d[j] == c[j] && NodeOk(mem, c, j, i);
      } else {
        assert d[j] == c[j + 1] && NodeOk(mem, c, j + 1, i);
      }
    }
  }

  /** A chain does not notice what happens to entries outside it, nor to its entries' data. */
  lemma ChainFrame<A(!new)>(mem: Memory<A>, m: Memory<A>, head: Ptr, i: nat, c: seq<Ref>)
    requires ChainOk(mem, head, i, c)
    requires forall r :: r in c && r in mem ==> r in m && m[r].next == mem[r].next && m[r].pprev == mem[r].pprev
    ensures ChainOk(m, head, i, c)
  {
    forall k | 0 <= k < |c| ensures NodeOk(m, c, k, i) {
      assert NodeOk(mem, c, k, i) && c[k] in c;
    }
  }

  // --- The whole table ---------------------------------------------------------------------

  /** The sixteen chains are threaded as they should be. */
  ghost predicate Chained<A(!new)>(mem: Memory<A>, nethash: seq<Ptr>, chains: seq<seq<Ref>>) {
    && |nethash| == NAT25_HASH_SIZE == |chains|
    && forall i :: 0 <= i < NAT25_HASH_SIZE ==> ChainOk(mem, nethash[i], i, chains[i])
  }

  /** The allocated entries are exactly the members of the chains, each in the bucket of its
      address's hash; and no address occurs twice, because `at` finds the entry of each. */
  ghost predicate Indexed<A(!new)>(h: Hasher<A>, mem: Memory<A>, chains: seq<seq<Ref>>, at: map<A, Ref>) {
    && |chains| == NAT25_HASH_SIZE
    && (forall a :: h(a) < NAT25_HASH_SIZE)
    && (forall i, k :: 0 <= i < NAT25_HASH_SIZE && 0 <= k < |chains[i]| ==>
          chains[i][k] in mem && h(mem[chains[i][k]].addr) == i)
    && (forall r :: r in mem ==> r in chains[h(mem[r].addr)] && mem[r].addr in at && at[mem[r].addr] == r)
    && (forall a :: a in at ==> at[a] in mem && mem[at[a]].addr == a)
  }

  /** `db` is the map that the entries stand for. */
  ghost predicate Represents<A(!new)>(mem: Memory<A>, at: map<A, Ref>, db: Database<A>) {
    && db.Keys == at.Keys
    && forall r :: r in mem ==> mem[r].addr in db && db[mem[r].addr] == mem[r].Rec()
  }

  /** What the invariants say of one allocated entry. */
  lemma EntryFacts<A(!new)>(h: Hasher<A>, mem: Memory<A>, chains: seq<seq<Ref>>, at: map<A, Ref>, db: Database<A>,
      r: Ref)
    requires Indexed(h, mem, chains, at) && Represents(mem, at, db) && r in mem
    ensures mem[r].addr in at && mem[r].addr in db && db[mem[r].addr] == mem[r].Rec()
    ensures forall s :: s in mem && s != r ==> mem[s].addr != mem[r].addr
  {
  }

  /** What they say of a position in a chain. */
  lemma PositionFacts<A(!new)>(mem: Memory<A>, nethash: seq<Ptr>, chains: seq<seq<Ref>>, i: nat, k: nat)
    requires Chained(mem, nethash, chains) && i < NAT25_HASH_SIZE && k < |chains[i]|
    ensures |nethash| == NAT25_HASH_SIZE == |chains|
    ensures chains[i][k] in mem && !mem[chains[i][k]].pprev.Detached?
    ensures mem[chains[i][k]].pprev.Bucket? ==> mem[chains[i][k]].pprev.i < NAT25_HASH_SIZE
    ensures ChainOk(mem, nethash[i], i, chains[i]) && Distinct(chains[i]) && NodeOk(mem, chains[i], k, i)
    ensures mem[chains[i][k]].next.To? ==>
      mem[chains[i][k]].next.ref in mem && mem[chains[i][k]].next.ref != chains[i][k]
    ensures mem[chains[i][k]].pprev.NextOf? ==>
      mem[chains[i][k]].pprev.ref in mem && mem[chains[i][k]].pprev.ref != chains[i][k]
    ensures nethash[i := if k == 0 then mem[chains[i][k]].next else nethash[i]]
         == if mem[chains[i][k]].pprev.Bucket? then nethash[mem[chains[i][k]].pprev.i := mem[chains[i][k]].next]
            else nethash
  {
    var c := chains[i];
    assert NodeOk(mem, c, k, i);
    if k > 0 { assert NodeOk(mem, c, k - 1, i); }
    if k + 1 < |c| { assert NodeOk(mem, c, k + 1, i); }
  }

  lemma BucketFacts<A(!new)>(h: Hasher<A>, mem: Memory<A>, nethash: seq<Ptr>, chains: seq<seq<Ref>>,
      at: map<A, Ref>, a: A)
    requires Chained(mem, nethash, chains) && Indexed(h, mem, chains, at)
    ensures |nethash| == NAT25_HASH_SIZE == |chains| && h(a) < NAT25_HASH_SIZE
    ensures nethash[h(a)].To? ==> nethash[h(a)].ref in mem
  {
    var c := chains[h(a)];
    if c != [] { assert NodeOk(mem, c, 0, h(a)); }
  }

  /** Chains in different buckets share no entry. */
  lemma ChainsDisjoint<A(!new)>(h: Hasher<A>, mem: Memory<A>, chains: seq<seq<Ref>>, at: map<A, Ref>, i: nat, j: nat)
    requires Indexed(h, mem, chains, at) && i < NAT25_HASH_SIZE && j < NAT25_HASH_SIZE && i != j
    ensures forall s :: s in chains[j] ==> s !in chains[i]
  {
  }

  /** What happens to the members of one chain is not noticed in the other buckets. */
  lemma OtherChainsKept<A(!new)>(h: Hasher<A>, mem: Memory<A>, m: Memory<A>, nethash: seq<Ptr>, chains: seq<seq<Ref>>,
    at: map<A, Ref>, i: nat)
    requires Chained(mem, nethash, chains) && Indexed(h, mem, chains, at) && i < NAT25_HASH_SIZE
    requires forall s :: s in mem && s !in chains[i] ==> s in m && m[s] == mem[s]
    ensures forall j :: 0 <= j < NAT25_HASH_SIZE && j != i ==> ChainOk(m, nethash[j], j, chains[j])
  {
    forall j | 0 <= j < NAT25_HASH_SIZE && j != i ensures ChainOk(m, nethash[j], j, chains[j]) {
      ChainsDisjoint(h, mem, chains, at, i, j);
      ChainFrame(mem, m, nethash[j], j, chains[j]);
    }
  }

  /** Rewriting the data of one entry. */
  lemma DataKeepsChained<A(!new)>(mem: Memory<A>, nethash: seq<Ptr>, chains: seq<seq<Ref>>, r: Ref, e: Entry<A>)
    requires Chained(mem, nethash, chains) && r in mem && e.next == mem[r].next && e.pprev == mem[r].pprev
    ensures Chained(mem[r := e], nethash, chains)
  {
    forall i | 0 <= i < NAT25_HASH_SIZE ensures ChainOk(mem[r := e], nethash[i], i, chains[i]) {
      ChainFrame(mem, mem[r := e], nethash[i], i, chains[i]);
    }
  }

  lemma DataKeepsIndexed<A(!new)>(h: Hasher<A>, mem: Memory<A>, chains: seq<seq<Ref>>, at: map<A, Ref>, r: Ref,
      e: Entry<A>)
    requires Indexed(h, mem, chains, at) && r in mem && e.addr == mem[r].addr
    ensures Indexed(h, mem[r := e], chains, at)
    ensures forall s :: s in mem && s != r ==> mem[s].addr != e.addr
  {
  }

  lemma DataKeepsRepresents<A(!new)>(mem: Memory<A>, at: map<A, Ref>, db: Database<A>, r: Ref, e: Entry<A>)
    requires Represents(mem, at, db) && r in mem && e.addr == mem[r].addr
    requires forall s :: s in mem && s != r ==> mem[s].addr != e.addr
    ensures Represents(mem[r := e], at, db[e.addr := e.Rec()])
  {
  }

  /** Linking a fresh entry into the bucket of its address. */
  lemma LinkKeepsChained<A(!new)>(h: Hasher<A>, mem: Memory<A>, nethash: seq<Ptr>, chains: seq<seq<Ref>>,
    at: map<A, Ref>, r: Ref, e: Entry<A>)
    requires Chained(mem, nethash, chains) && Indexed(h, mem, chains, at) && r !in mem
    ensures var i := h(e.addr);
      && (nethash[i].To? ==> nethash[i].ref in mem)
      && Chained(LinkMem(mem[r := e], nethash[i], r, i), nethash[i := To(r)], chains[i := [r] + chains[i]])
  {
    var i := h(e.addr);
    var c := chains[i];
    ChainFrame(mem, mem[r := e], nethash[i], i, c);
    LinkKeepsChain(mem[r := e], nethash[i], r, i, c);
    if c != [] { assert NodeOk(mem, c, 0, i); }
    var m := LinkMem(mem[r := e], nethash[i], r, i);
    OtherChainsKept(h, mem, m, nethash, chains, at, i);
  }

  lemma LinkKeepsIndexed<A(!new)>(h: Hasher<A>, mem: Memory<A>, head: Ptr, chains: seq<seq<Ref>>,
    at: map<A, Ref>, r: Ref, e: Entry<A>)
    requires Indexed(h, mem, chains, at) && r !in mem && e.addr !in at && (head.To? ==> head.ref in mem)
    ensures var i := h(e.addr);
      Indexed(h, LinkMem(mem[r := e], head, r, i), chains[i := [r] + chains[i]], at[e.addr := r])
  {
    var i := h(e.addr);
    var m := LinkMem(mem[r := e], head, r, i);
    var d := [r] + chains[i];
    assert m.Keys == mem.Keys + {r} && forall s :: s in m ==> m[s].addr == mem[r := e][s].addr;
    forall s | s in mem && h(mem[s].addr) == i ensures s in d {
      assert s in chains[i];
    }
  }

  /** Unlinking entry `k` of chain `i` and freeing it, as seen by that chain. */
  lemma UnlinkKeepsOwnChain<A(!new)>(mem: Memory<A>, head: Ptr, i: nat, c: seq<Ref>, k: nat)
    requires ChainOk(mem, head, i, c) && k < |c|
    ensures var r := c[k];
      && r in mem && (mem[r].pprev.NextOf? ==> mem[r].pprev.ref in mem) && (mem[r].next.To? ==> mem[r].next.ref in mem)
      && ChainOk(UnlinkMem(mem, r) - {r}, if k == 0 then mem[r].next else head, i, Without(c, k))
  {
    var r := c[k];
    UnlinkKeepsChain(mem, head, r, i, c, k);
    var d := Without(c, k);
    assert r !in d;
    ChainFrame(UnlinkMem(mem, r), UnlinkMem(mem, r) - {r}, if k == 0 then mem[r].next else head, i, d);
  }

  lemma UnlinkKeepsChained<A(!new)>(h: Hasher<A>, mem: Memory<A>, nethash: seq<Ptr>, chains: seq<seq<Ref>>,
    at: map<A, Ref>, i: nat, k: nat)
    requires Chained(mem, nethash, chains) && Indexed(h, mem, chains, at) && i < NAT25_HASH_SIZE && k < |chains[i]|
    ensures var r := chains[i][k];
      && r in mem && (mem[r].pprev.NextOf? ==> mem[r].pprev.ref in mem) && (mem[r].next.To? ==> mem[r].next.ref in mem)
      && Chained(UnlinkMem(mem, r) - {r}, nethash[i := if k == 0 then mem[r].next else nethash[i]],
                 chains[i := Without(chains[i], k)])
  {
    var c := chains[i];
    UnlinkKeepsOwnChain(mem, nethash[i], i, c, k);
    UnlinkTouches(mem, nethash[i], i, c, k);
    OtherChainsKept(h, mem, UnlinkMem(mem, c[k]) - {c[k]}, nethash, chains, at, i);
  }

  lemma UnlinkKeepsIndexed<A(!new)>(h: Hasher<A>, mem: Memory<A>, m: Memory<A>, chains: seq<seq<Ref>>,
    at: map<A, Ref>, i: nat, k: nat)
    requires Indexed(h, mem, chains, at) && i < NAT25_HASH_SIZE && k < |chains[i]| && Distinct(chains[i])
    requires m.Keys == mem.Keys - {chains[i][k]} && forall s :: s in m ==> m[s].addr == mem[s].addr
    ensures Indexed(h, m, chains[i := Without(chains[i], k)], at - {mem[chains[i][k]].addr})
  {
    var c := chains[i];
    var d := Without(c, k);
    forall n | 0 <= n < |d| ensures d[n] in m && h(m[d[n]].addr) == i {
      assert d[n] == if n < k then c[n] else c[n + 1];
    }
    forall s | s in m && h(m[s].addr) == i ensures s in d {
      var n :| 0 <= n < |c| && c[n] == s;
      assert if n < k then d[n] == s else d[n - 1] == s;
    }
  }

  /** Unlinking writes only members of the chain, and only their links. */
  lemma UnlinkTouches<A(!new)>(mem: Memory<A>, head: Ptr, i: nat, c: seq<Ref>, k: nat)
    requires ChainOk(mem, head, i, c) && k < |c|
    requires c[k] in mem && (mem[c[k]].pprev.NextOf? ==> mem[c[k]].pprev.ref in mem)
    requires (mem[c[k]].next.To? ==> mem[c[k]].next.ref in mem)
    ensures var m := UnlinkMem(mem, c[k]);
      && m.Keys == mem.Keys
      && (forall s :: s in mem && s !in c ==> m[s] == mem[s])
      && (forall s :: s in mem ==> m[s].addr == mem[s].addr && m[s].Rec() == mem[s].Rec())
  {
    assert NodeOk(mem, c, k, i);
  }

  lemma UnlinkKeepsRepresents<A(!new)>(mem: Memory<A>, m: Memory<A>, at: map<A, Ref>, db: Database<A>, r: Ref)
    requires Represents(mem, at, db) && r in mem && m.Keys == mem.Keys - {r}
    requires forall s :: s in m ==> m[s].addr == mem[s].addr && m[s].Rec() == mem[s].Rec() && m[s].addr != mem[r].addr
    ensures Represents(m, at - {mem[r].addr}, db - {mem[r].addr})
  {
  }

  /** Everything that removing position `k` of bucket `i` relies on and achieves. */
  lemma RemoveFacts<A(!new)>(h: Hasher<A>, mem: Memory<A>, nethash: seq<Ptr>, chains: seq<seq<Ref>>,
    at: map<A, Ref>, db: Database<A>, i: nat, k: nat)
    requires Chained(mem, nethash, chains) && Indexed(h, mem, chains, at) && Represents(mem, at, db)
    requires i < NAT25_HASH_SIZE && k < |chains[i]|
    ensures |nethash| == NAT25_HASH_SIZE == |chains| && chains[i][k] in mem
    ensures var e := mem[chains[i][k]];
      && !e.pprev.Detached?
      && (e.pprev.Bucket? ==> e.pprev.i < NAT25_HASH_SIZE)
      && (e.pprev.NextOf? ==> e.pprev.ref in mem && e.pprev.ref != chains[i][k])
      && (e.next.To? ==> e.next.ref in mem && e.next.ref != chains[i][k])
    ensures var r := chains[i][k];
      var e := mem[r];
      var m := UnlinkMem(mem, r) - {r};
      && m.Keys == mem.Keys - {r}
      && (forall s :: s in m ==> m[s].uses == mem[s].uses && m[s].addr == mem[s].addr)
      && Chained(m, if e.pprev.Bucket? then nethash[e.pprev.i := e.next] else nethash,
                 chains[i := Without(chains[i], k)])
      && Indexed(h, m, chains[i := Without(chains[i], k)], at - {e.addr})
      && Represents(m, at - {e.addr}, db - {e.addr})
  {
    hide Chained, Indexed, Represents;
    StartFacts(mem, nethash, chains, i);
    var r := chains[i][k];
    PositionFacts(mem, nethash, chains, i, k);
    EntryFacts(h, mem, chains, at, db, r);
    UnlinkKeepsChained(h, mem, nethash, chains, at, i, k);
    UnlinkTouches(mem, nethash[i], i, chains[i], k);
    var m := UnlinkMem(mem, r) - {r};
    assert forall s :: s in m ==> m[s].Rec().uses == mem[s].Rec().uses;
    UnlinkKeepsIndexed(h, mem, m, chains, at, i, k);
    UnlinkKeepsRepresents(mem, m, at, db, r);
  }

  lemma EmptyFacts<A(!new)>(h: Hasher<A>, mem: Memory<A>, chains: seq<seq<Ref>>, at: map<A, Ref>, db: Database<A>)
    requires Indexed(h, mem, chains, at) && Represents(mem, at, db)
    requires forall i :: 0 <= i < NAT25_HASH_SIZE ==> chains[i] == []
    ensures mem == map[] && db == map[]
  {
    assert mem.Keys == {} && at.Keys == {};
  }

  // --- How far an expire pass has got ---------------------------------------------------------

  /** The addresses in bucket `i` and later. */
  ghost function RestFrom<A(!new)>(h: Hasher<A>, at: map<A, Ref>, i: nat): set<A> {
    set a | a in at && h(a) >= i
  }

  /** The addresses at position `k` of bucket `i` and later. */
  ghost function Rest<A(!new)>(h: Hasher<A>, chains: seq<seq<Ref>>, at: map<A, Ref>, i: nat, k: nat): set<A>
    requires i < |chains| && k <= |chains[i]|
  {
    set a | a in at && (h(a) > i || (h(a) == i && at[a] in chains[i][k..]))
  }

  lemma RestFirst<A(!new)>(h: Hasher<A>, mem: Memory<A>, chains: seq<seq<Ref>>, at: map<A, Ref>, db: Database<A>)
    requires Indexed(h, mem, chains, at) && Represents(mem, at, db)
    ensures |chains| == NAT25_HASH_SIZE
    ensures RestFrom(h, at, 0) == db.Keys
  {
  }

  lemma RestLast<A(!new)>(h: Hasher<A>, mem: Memory<A>, chains: seq<seq<Ref>>, at: map<A, Ref>)
    requires Indexed(h, mem, chains, at)
    ensures RestFrom(h, at, NAT25_HASH_SIZE) == {}
  {
  }

  lemma RestBucket<A(!new)>(h: Hasher<A>, mem: Memory<A>, chains: seq<seq<Ref>>, at: map<A, Ref>, i: nat)
    requires Indexed(h, mem, chains, at) && i < NAT25_HASH_SIZE
    ensures Rest(h, chains, at, i, 0) == RestFrom(h, at, i)
    ensures Rest(h, chains, at, i, |chains[i]|) == RestFrom(h, at, i + 1)
  {
    assert chains[i][0..] == chains[i];
  }

  /** Dealing with position `k` takes its address out of the rest, whether the entry stays in
      the chain or is taken out of it. */
  lemma RestStep<A(!new)>(h: Hasher<A>, mem: Memory<A>, chains: seq<seq<Ref>>, at: map<A, Ref>, i: nat, k: nat)
    requires Indexed(h, mem, chains, at) && i < NAT25_HASH_SIZE && k < |chains[i]| && Distinct(chains[i])
    ensures chains[i][k] in mem
    ensures var addr := mem[chains[i][k]].addr;
      && addr in Rest(h, chains, at, i, k)
      && Rest(h, chains, at, i, k + 1) == Rest(h, chains, at, i, k) - {addr}
      && Rest(h, chains[i := Without(chains[i], k)], at - {addr}, i, k) == Rest(h, chains, at, i, k) - {addr}
  {
    var c := chains[i];
    var addr := mem[c[k]].addr;
    assert c[k..] == [c[k]] + c[k + 1..] && c[k] !in c[k + 1..];
    assert Without(c, k)[k..] == c[k + 1..];
  }

  lemma NextFacts<A(!new)>(mem: Memory<A>, nethash: seq<Ptr>, chains: seq<seq<Ref>>, i: nat, k: nat)
    requires Chained(mem, nethash, chains) && i < NAT25_HASH_SIZE && k < |chains[i]|
    ensures chains[i][k] in mem
    ensures mem[chains[i][k]].next == Nth(chains[i], k + 1) == Nth(Without(chains[i], k), k)
  {
    assert NodeOk(mem, chains[i], k, i);
  }

  // --- The driver's table ------------------------------------------------------------------

  class Bridge<A(==, !new)> {
    const ck: Clock
    const h: Hasher<A>
    var mem: Memory<A>
    var nethash: seq<Ptr>
    var shortcut: Ptr             // scdb_entry
    var shortcutMac: Mac          // scdb_mac
    var shortcutIp: seq<Byte>     // scdb_ip
    ghost var chains: seq<seq<Ref>>
    ghost var at: map<A, Ref>
    ghost var db: Database<A>

    ghost predicate Valid()
      reads this
    {
      && ck.Ok()
      && Chained(mem, nethash, chains)
      && Indexed(h, mem, chains, at)
      && Represents(mem, at, db)
      && (forall r :: r in mem ==> mem[r].uses >= 1)
      && (shortcut.To? ==> shortcut.ref in mem)
    }

    /** The shortcut, with the address of the entry it points at. */
    ghost function Held(): Shortcut<A>
      requires shortcut.To? ==> shortcut.ref in mem
      reads this
    {
      if shortcut.To? then Set(mem[shortcut.ref].addr, shortcutMac, shortcutIp) else Unset(shortcutMac, shortcutIp)
    }

    lemma HeldRecorded()
      requires Valid()
      ensures Held().Set? ==> Held().addr in db
    {
      hide Chained, Indexed, Represents;
      if shortcut.To? { EntryFacts(h, mem, chains, at, db, shortcut.ref); }
    }

    lemma HeldKept()
      requires Valid()
      ensures Held() == Kept(Held(), db)
    {
      hide Chained, Indexed, Represents;
      HeldRecorded();
    }

    constructor (ck: Clock, h: Hasher<A>)
      requires ck.Ok() && forall a :: h(a) < NAT25_HASH_SIZE
      ensures Valid() && db == map[] && mem == map[] && this.h == h && this.ck == ck
      ensures Held() == Unset(NO_MAC, NO_IP)
    {
      this.ck := ck;
      this.h := h;
      mem := map[];
      nethash := seq(NAT25_HASH_SIZE, _ => Null);
      shortcut := Null;
      shortcutMac := NO_MAC;
      shortcutIp := NO_IP;
      chains := seq(NAT25_HASH_SIZE, _ => []);
      at := map[];
      db := map[];
    }

    /** `__network_hash_link`. */
    method Link(r: Ref, i: nat)
      requires i < |nethash| && r in mem && (nethash[i].To? ==> nethash[i].ref in mem && nethash[i].ref != r)
      modifies `mem, `nethash
      ensures mem == LinkMem(old(mem), old(nethash)[i], r, i)
      ensures nethash == old(nethash)[i := To(r)]
    {
      mem := mem[r := mem[r].(next := nethash[i])];
      if mem[r].next.To? {
        var n := mem[r].next.ref;
        mem := mem[n := mem[n].(pprev := NextOf(r))];
      }
      nethash := nethash[i := To(r)];
      mem := mem[r := mem[r].(pprev := Bucket(i))];
    }

    /** `__network_hash_unlink`: the entry is reached through its back-pointer. */
    method Unlink(r: Ref)
      requires r in mem && !mem[r].pprev.Detached?
      requires mem[r].pprev.Bucket? ==> mem[r].pprev.i < |nethash|
      requires mem[r].pprev.NextOf? ==> mem[r].pprev.ref in mem && mem[r].pprev.ref != r
      requires mem[r].next.To? ==> mem[r].next.ref in mem && mem[r].next.ref != r
      modifies `mem, `nethash
      ensures mem == UnlinkMem(old(mem), r)
      ensures nethash ==
        if old(mem)[r].pprev.Bucket? then old(nethash)[old(mem)[r].pprev.i := old(mem)[r].next] else old(nethash)
    {
      match mem[r].pprev {
        case Bucket(b) => nethash := nethash[b := mem[r].next];
        case NextOf(p) => mem := mem[p := mem[p].(next := mem[r].next)];
        case Detached => assert false;
      }
      if mem[r].next.To? {
        var n := mem[r].next.ref;
        mem := mem[n := mem[n].(pprev := mem[r].pprev)];
      }
      mem := mem[r := mem[r].(next := Null, pprev := Detached)];
    }

    /** The chain walk that lookup, insertion and `scdb_findEntry` share. */
    method Find(addr: A) returns (p: Ptr)
      requires Valid()
      ensures p == if addr in at then To(at[addr]) else Null
      ensures p.To? ==> p.ref in mem && mem[p.ref].addr == addr
      ensures addr in at <==> addr in db
    {
      p := nethash[h(addr)];
      ghost var c := chains[h(addr)];
      ghost var k := 0;
      assert ChainOk(mem, p, h(addr), c);
      while p.To? && mem[p.ref].addr != addr
        invariant 0 <= k <= |c| && p == Nth(c, k) && (p.To? ==> p.ref in mem)
        invariant forall m :: 0 <= m < k ==> mem[c[m]].addr != addr
        decreases |c| - k
      {
        assert NodeOk(mem, c, k, h(addr));
        p := mem[p.ref].next;
        k := k + 1;
        assert k < |c| ==> NodeOk(mem, c, k, h(addr));
      }
    }

    /** Rewrites the data, not the links, of one entry. */
    method Store(r: Ref, mac: Mac, seen: nat, uses: int)
      requires Valid() && r in mem && uses >= 1
      modifies `mem, `db
      ensures Valid() && mem.Keys == old(mem.Keys) && Held() == old(Held())
      ensures db == old(db)[old(mem)[r].addr := Record(mac, seen, uses)]
      ensures db.Keys == old(db).Keys
    {
      hide Chained, Indexed, Represents;
      EntryFacts(h, mem, chains, at, db, r);
      var e := mem[r].(mac := mac, seen := seen, uses := uses);
      DataKeepsChained(mem, nethash, chains, r, e);
      DataKeepsIndexed(h, mem, chains, at, r, e);
      DataKeepsRepresents(mem, at, db, r, e);
      mem := mem[r := e];
      db := db[e.addr := e.Rec()];
    }

    /** `__nat25_db_network_lookup_and_replace`: the destination address of the frame becomes
        the recorded MAC address unless the entry has expired; the result says whether the
        address was in the table at all. */
    method Lookup(frame: array<Byte>, addr: A, now: nat) returns (found: bool)
      requires Valid() && frame.Length >= ETH_ALEN
      modifies `mem, `db, frame
      ensures Valid() && mem.Keys == old(mem.Keys) && Held() == old(Held())
      ensures found <==> addr in old(db)
      ensures db == LookedUp(ck, old(db), addr, now)
      ensures frame[..] ==
        if addr in old(db) && !ck.Expired(old(db)[addr].seen, now)
        then old(db)[addr].mac.Bytes() + old(frame[ETH_ALEN..]) else old(frame[..])
    {
      hide Chained, Indexed, Represents;
      var p := Find(addr);
      found := p.To?;
      if found {
        EntryFacts(h, mem, chains, at, db, p.ref);
        var e := mem[p.ref];
        if !ck.Expired(e.seen, now) {
          ReplaceDestination(frame, e.mac);
          Store(p.ref, e.mac, e.seen, e.uses + 1);
        }
      }
    }

    /** `__nat25_db_network_insert`; `memory` is what the allocator returns if it is asked. */
    method Insert(addr: A, mac: Mac, now: nat, memory: Ptr)
      requires Valid() && (memory.To? ==> memory.ref !in mem)
      modifies `mem, `nethash, `chains, `at, `db
      ensures Valid() && Held() == old(Held())
      ensures db == Inserted(old(db), addr, mac, now, memory.To?)
    {
      hide Chained, Indexed, Represents;
      var p := Find(addr);
      if p.To? {
        EntryFacts(h, mem, chains, at, db, p.ref);
        Store(p.ref, mac, now, mem[p.ref].uses);
      } else if memory.To? {
        var e := Entry(addr, Null, Detached, mac, now, 1);
        AddEntry(memory.ref, e);
      }
    }

    /** Linking a freshly allocated entry. */
    method AddEntry(r: Ref, e: Entry<A>)
      requires Valid() && r !in mem && e.addr !in at && e.addr !in db && e.uses >= 1
      modifies `mem, `nethash, `chains, `at, `db
      ensures Valid() && Held() == old(Held())
      ensures db == old(db)[e.addr := e.Rec()]
    {
      hide Chained, Indexed, Represents;
      BucketFacts(h, mem, nethash, chains, at, e.addr);
      var i := h(e.addr);
      LinkKeepsChained(h, mem, nethash, chains, at, r, e);
      LinkKeepsIndexed(h, mem, nethash[i], chains, at, r, e);
      LinkKeepsRepresents(mem, at, db, nethash[i], r, i, e);
      mem := mem[r := e];
      Link(r, i);
      chains := chains[i := [r] + chains[i]];
      at := at[e.addr := r];
      db := db[e.addr := e.Rec()];
    }

    /** What one expire pass does to one entry. */
    method ExpireEntry(r: Ref, now: nat, ghost i: nat, ghost k: nat) returns (ghost gone: bool)
      requires Valid() && i < NAT25_HASH_SIZE && k < |chains[i]| && chains[i][k] == r && r in mem
      modifies this
      ensures Valid() && Held() == Kept(old(Held()), db) && db.Keys <= old(db).Keys
      ensures old(mem)[r].addr in old(db)
      ensures gone <==> Forgotten(ck, old(db)[old(mem)[r].addr], now)
      ensures db == ExpireAt(ck, old(db), old(mem)[r].addr, now)
      ensures chains == if gone then old(chains)[i := Without(old(chains)[i], k)] else old(chains)
      ensures at == if gone then old(at) - {old(mem)[r].addr} else old(at)
    {
      hide Chained, Indexed, Represents;
      gone := false;
      HeldRecorded();
      var e := mem[r];
      EntryFacts(h, mem, chains, at, db, r);
      if ck.Expired(e.seen, now) {
        if e.uses - 1 == 0 {
          gone := true;
          Remove(r, i, k);
        } else {
          Store(r, e.mac, e.seen, e.uses - 1);
        }
      }
    }

    /** Clears the shortcut if it points at `r`. */
    method DropShortcut(r: Ref)
      modifies `shortcut, `shortcutMac, `shortcutIp
      ensures shortcut == if old(shortcut) == To(r) then Null else old(shortcut)
      ensures if old(shortcut) == To(r) then shortcutMac == NO_MAC && shortcutIp == NO_IP
              else shortcutMac == old(shortcutMac) && shortcutIp == old(shortcutIp)
    {
      if shortcut == To(r) {
        shortcutMac := NO_MAC;
        shortcutIp := NO_IP;
        shortcut := Null;
      }
    }

    /** Unlinks and frees one entry, dropping the shortcut if it points there. */
    method Remove(r: Ref, ghost i: nat, ghost k: nat)
      requires Valid() && i < NAT25_HASH_SIZE && k < |chains[i]| && chains[i][k] == r && r in mem
      modifies this
      ensures Valid() && Held() == Kept(old(Held()), db)
      ensures db == old(db) - {old(mem)[r].addr}
      ensures chains == old(chains)[i := Without(old(chains)[i], k)]
      ensures at == old(at) - {old(mem)[r].addr}
      ensures mem.Keys == old(mem.Keys) - {r}
    {
      hide Chained, Indexed, Represents, UnlinkMem;
      StartFacts(mem, nethash, chains, i);
      RemoveFacts(h, mem, nethash, chains, at, db, i, k);
      EntryFacts(h, mem, chains, at, db, r);
      HeldRecorded();
      chains := chains[i := Without(chains[i], k)];
      at := at - {mem[r].addr};
      db := db - {mem[r].addr};
      DropShortcut(r);
      Unlink(r);
      mem := mem - {r};
    }

    /** One bucket of an expire pass; the successor is read before the entry may be freed. */
    method ExpireBucket(i: nat, now: nat, ghost db0: Database<A>)
      requires Valid() && i < NAT25_HASH_SIZE
      requires |chains| == NAT25_HASH_SIZE && Rest(h, chains, at, i, 0) <= db0.Keys
      requires db == PartPass(ck, db0, Rest(h, chains, at, i, 0), now)
      modifies this
      ensures Valid() && |chains| == NAT25_HASH_SIZE
      ensures Held() == Kept(old(Held()), db) && db.Keys <= old(db).Keys
      ensures Rest(h, chains, at, i, |chains[i]|) <= db0.Keys
      ensures db == PartPass(ck, db0, Rest(h, chains, at, i, |chains[i]|), now)
    {
      hide Chained, Indexed, Represents, ChainOk, NodeOk, ExpireAt, PartPass, Rest;
      StartFacts(mem, nethash, chains, i);
      HeldKept();
      ghost var sc := Held();
      var f := nethash[i];
      ghost var k := 0;
      while f.To?
        invariant Valid() && |chains| == NAT25_HASH_SIZE && k <= |chains[i]| && f == Nth(chains[i], k)
        invariant Held() == Kept(sc, db) && db.Keys <= old(db).Keys
        invariant Rest(h, chains, at, i, k) <= db0.Keys
        invariant db == PartPass(ck, db0, Rest(h, chains, at, i, k), now)
        decreases |chains[i]| - k
      {
        PositionFacts(mem, nethash, chains, i, k);
        NextFacts(mem, nethash, chains, i, k);
        RestStep(h, mem, chains, at, i, k);
        ghost var addr, rest := mem[f.ref].addr, Rest(h, chains, at, i, k);
        PartPassStep(ck, db0, rest, addr, now);
        var g := mem[f.ref].next;
        ghost var d := db;
        ghost var gone := ExpireEntry(f.ref, now, i, k);
        KeptTwice(sc, d, db);
        k := if gone then k else k + 1;
        f := g;
      }
    }

    /** `nat25_db_expire`. */
    method Expire(now: nat)
      requires Valid()
      modifies this
      ensures Valid() && Held() == Kept(old(Held()), db)
      ensures db == ExpirePass(ck, old(db), now)
    {
      hide Chained, Indexed, Represents, ExpireAt, PartPass, ExpirePass, Rest, Kept;
      HeldKept();
      ghost var db0, sc := db, Held();
      PartPassEnds(ck, db0, now);
      RestFirst(h, mem, chains, at, db);
      for i := 0 to NAT25_HASH_SIZE
        invariant Valid() && |chains| == NAT25_HASH_SIZE && Held() == Kept(sc, db)
        invariant RestFrom(h, at, i) <= db0.Keys && db == PartPass(ck, db0, RestFrom(h, at, i), now)
      {
        RestBucket(h, mem, chains, at, i);
        ghost var d := db;
        ExpireBucket(i, now, db0);
        KeptTwice(sc, d, db);
        RestBucket(h, mem, chains, at, i);
      }
      RestLast(h, mem, chains, at);
    }

    /** `nat25_db_cleanup`: everything is unlinked and freed, and the shortcut with it. */
    method Cleanup()
      requires Valid()
      modifies this
      ensures Valid() && Held() == Kept(old(Held()), map[])
      ensures db == map[] && mem == map[] && shortcut == Null
    {
      hide Chained, Indexed, Represents, ChainOk, NodeOk, Kept;
      HeldKept();
      ghost var sc := Held();
      StartFacts(mem, nethash, chains, 0);
      for i := 0 to NAT25_HASH_SIZE
        invariant Valid() && |nethash| == NAT25_HASH_SIZE == |chains| && Held() == Kept(sc, db)
        invariant forall j :: 0 <= j < i ==> chains[j] == []
      {
        StartFacts(mem, nethash, chains, i);
        var f := nethash[i];
        while f.To?
          invariant Valid() && |nethash| == NAT25_HASH_SIZE == |chains| && f == Nth(chains[i], 0)
          invariant Held() == Kept(sc, db)
          invariant forall j :: 0 <= j < i ==> chains[j] == []
          decreases |chains[i]|
        {
          NextFacts(mem, nethash, chains, i, 0);
          var g := mem[f.ref].next;
          ghost var d := db;
          Remove(f.ref, i, 0);
          KeptTwice(sc, d, db);
          StartFacts(mem, nethash, chains, i);
          f := g;
        }
      }
      EmptyFacts(h, mem, chains, at, db);
    }

    /** The transmit path's use of the table: a frame from the address of the shortcut renews
        the shortcut's entry, and a frame from another address moves the shortcut to the entry
        of its network address, if there is one. */
    method UseShortcut(src: Mac, ip: seq<Byte>, addr: A, now: nat) returns (hit: bool)
      requires Valid()
      modifies this
      ensures Valid() && mem.Keys == old(mem.Keys) && (hit <==> shortcut.To?)
      ensures Table(db, Held()) == Sent(Table(old(db), old(Held())), src, ip, addr, now)
    {
      hide Chained, Indexed, Represents, Touched;
      HeldRecorded();
      if src != shortcutMac {
        shortcut := Find(addr);
        if shortcut.To? {
          shortcutMac := src;
          shortcutIp := ip;
          Renew(shortcut.ref, now);
        }
      } else if shortcut.To? {
        Renew(shortcut.ref, now);
      } else {
        shortcutMac := NO_MAC;
        shortcutIp := NO_IP;
      }
      hit := shortcut.To?;
    }

    method Renew(r: Ref, now: nat)
      requires Valid() && r in mem
      modifies `mem, `db
      ensures Valid() && mem.Keys == old(mem.Keys) && Held() == old(Held())
      ensures db == Touched(old(db), old(mem)[r].addr, now)
    {
      hide Chained, Indexed, Represents;
      EntryFacts(h, mem, chains, at, db, r);
      Store(r, mem[r].mac, now, mem[r].uses);
    }

    /** One operation of the table, on any allocator that never hands out an entry that is still
        allocated. */
    method Handle(e: Event<A>, alloc: Memory<A> -> Ref, frame: array<Byte>)
      requires Valid() && frame.Length >= ETH_ALEN
      requires forall m :: alloc(m) !in m
      modifies this, frame
      ensures Valid()
      ensures db == Do(ck, old(db), e) && Held() == Kept(old(Held()), db)
    {
      hide Chained, Indexed, Represents, Inserted, LookedUp, ExpirePass, Touched;
      var now := ck.Wrap(e.t);
      match e.op {
        case Insert(addr, mac, memory) =>
          Insert(addr, mac, now, if memory then To(alloc(mem)) else Null);
          HeldKept();
        case Lookup(addr) =>
          var _ := Lookup(frame, addr, now);
          HeldKept();
        case Touch(addr) =>
          var p := Find(addr);
          if p.To? { Renew(p.ref, now); } else { UntouchedFacts(db, addr, now); }
          HeldKept();
        case ExpireAll => Expire(now);
        case Cleanup => Cleanup();
      }
    }

    /** A whole run of the driver's table, packets included, does what the run of the map and the
        shortcut says. */
    method Replay(sts: seq<Step<A>>, alloc: Memory<A> -> Ref, frame: array<Byte>)
      requires Valid() && frame.Length >= ETH_ALEN
      requires forall m :: alloc(m) !in m
      modifies this, frame
      ensures Valid()
      ensures Table(db, Held()) == ServeAll(ck, Table(old(db), old(Held())), sts)
    {
      hide Chained, Indexed, Represents, Do, Kept, Sent;
      ghost var s := Table(db, Held());
      for i := 0 to |sts|
        invariant Valid() && Table(db, Held()) == ServeAll(ck, s, sts[..i])
      {
        assert sts[..i + 1][..i] == sts[..i];
        match sts[i] {
          case On(e) => Handle(e, alloc, frame);
          case Packet(src, ip, addr, t) => var _ := UseShortcut(src, ip, addr, ck.Wrap(t));
        }
      }
      assert sts[..|sts|] == sts;
    }
  }

  method ReplaceDestination(frame: array<Byte>, mac: Mac)
    requires frame.Length >= ETH_ALEN
    modifies frame
    ensures frame[..] == mac.Bytes() + old(frame[ETH_ALEN..])
  {
    var b := mac.Bytes();
    forall j | 0 <= j < ETH_ALEN { frame[j] := b[j]; }
  }

  lemma LinkKeepsRepresents<A(!new)>(mem: Memory<A>, at: map<A, Ref>, db: Database<A>, head: Ptr, r: Ref, i: nat,
      e: Entry<A>)
    requires Represents(mem, at, db) && r !in mem && e.addr !in db && (head.To? ==> head.ref in mem)
    ensures Represents(LinkMem(mem[r := e], head, r, i), at[e.addr := r], db[e.addr := e.Rec()])
  {
    var m := LinkMem(mem[r := e], head, r, i);
    assert m.Keys == mem.Keys + {r} && forall s :: s in m ==>
      m[s].addr == mem[r := e][s].addr && m[s].Rec() == mem[r := e][s].Rec();
  }

  lemma StartFacts<A(!new)>(mem: Memory<A>, nethash: seq<Ptr>, chains: seq<seq<Ref>>, i: nat)
    requires Chained(mem, nethash, chains) && i < NAT25_HASH_SIZE
    ensures |nethash| == NAT25_HASH_SIZE == |chains| && nethash[i] == Nth(chains[i], 0)
  {
  }
}
