/**
  The MAC address access lists of the soft AP: a pool of sixteen slots and a list threaded
  through the slots in use, which together are a bounded set of addresses, oldest first.
 */
module AccessList {

  const NUM_ACL := 16
  const PERIOD_NUM := 2
  const MODE_DISABLED := 0
  const ACCEPT_UNLESS_LISTED := 1
  const DENY_UNLESS_LISTED := 2
  const BROADCAST := 0xFFFF_FFFF_FFFF

  type Addr = nat

  datatype Slot = Slot(addr: Addr, valid: bool)

  predicate Distinct(s: seq<nat>) {
    forall i, j :: 0 <= i < j < |s| ==> s[i] != s[j]
  }

  ghost predicate Below(q: seq<nat>, n: nat) {
    forall i :: 0 <= i < |q| ==> q[i] < n
  }

  /** The addresses in the slots `q`. */
  ghost function Names(q: seq<nat>, slots: seq<Slot>): (r: seq<Addr>)
    requires Below(q, |slots|)
    ensures |r| == |q| && forall i :: 0 <= i < |q| ==> r[i] == slots[q[i]].addr
  {
    if q == [] then [] else Names(q[..|q| - 1], slots) + [slots[q[|q| - 1]].addr]
  }

  function Without(l: seq<Addr>, addr: Addr): (r: seq<Addr>)
    ensures forall a :: a in r <==> a in l && addr != BROADCAST && a != addr
    ensures |r| <= |l|
  {
    if l == [] then []
    else
      var x := l[|l| - 1];
      assert l == l[..|l| - 1] + [x];
      Without(l[..|l| - 1], addr) + if addr == BROADCAST || x == addr then [] else [x]
  }

  class Pool {
    const slots: array<Slot>
    var queue: seq<nat>
    var num: int
    var mode: nat

    /** The list holds exactly the valid slots, each once, with different addresses. */
    ghost predicate Valid()
      reads this, slots
    {
      && slots.Length == NUM_ACL
      && num == |queue| && Below(queue, NUM_ACL) && Distinct(queue)
      && Distinct(Names(queue, slots[..]))
      && (forall i :: 0 <= i < NUM_ACL ==> (slots[i].valid <==> i in queue))
    }

    /** The listed addresses. */
    ghost function List(): seq<Addr>
      requires Valid()
      reads this, slots
    {
      Names(queue, slots[..])
    }

    /** `rtw_macaddr_acl_init`. */
    constructor ()
      ensures Valid() && List() == [] && mode == MODE_DISABLED && fresh(slots)
    {
      slots := new Slot[NUM_ACL](_ => Slot(0, false));
      queue, num, mode := [], 0, MODE_DISABLED;
    }

    /** The search both `rtw_acl_add_sta` and `_rtw_access_ctrl` make. */
    method Listed(addr: Addr) returns (r: bool)
      requires Valid()
      ensures r <==> addr in List()
    {
      r := false;
      var i := 0;
      while i < |queue| && !r
        invariant i <= |queue| && (forall j :: 0 <= j < i ==> List()[j] != addr)
        invariant r ==> addr in List()
        decreases |queue| - i, !r
      {
        if slots[queue[i]].addr == addr && slots[queue[i]].valid {
          assert List()[i] == addr;
          r := true;
        } else {
          i := i + 1;
        }
      }
    }

    /** `rtw_acl_add_sta` for an existing period: it fails exactly if the address is not listed
        and all slots are in use. */
    method Add(addr: Addr) returns (ret: int)
      requires Valid()
      modifies `queue, `num, slots
      ensures Valid()
      ensures ret == if addr !in old(List()) && |old(List())| == NUM_ACL then -1 else 0
      ensures List() == old(List()) + if ret == 0 && addr !in old(List()) then [addr] else []
    {
      hide Distinct, Names;
      InRange(queue, NUM_ACL);
      var existed := Listed(addr);
      var i := -1;
      if !existed && num < NUM_ACL {
        i := FreeSlot();
        Occupy(i, addr);
      } else {
        assert List() + [] == List();
      }
      ret := if !existed && (i < 0 || i >= NUM_ACL) then -1 else 0;
    }

    /** The scan for an empty slot finds one. */
    method FreeSlot() returns (i: nat)
      requires Valid() && num < NUM_ACL
      ensures i < NUM_ACL && !slots[i].valid
    {
      hide Distinct, Names;
      i := 0;
      if (forall j :: 0 <= j < NUM_ACL ==> j in queue) {
        AllIn(queue, NUM_ACL);
      }
      while i < NUM_ACL && slots[i].valid
        invariant i <= NUM_ACL && forall j :: 0 <= j < i ==> j in queue
      {
        i := i + 1;
      }
    }

    method Occupy(i: nat, addr: Addr)
      requires Valid() && i < NUM_ACL && !slots[i].valid && addr !in List()
      modifies `queue, `num, slots
      ensures Valid() && List() == old(List()) + [addr]
    {
      hide Names;
      ghost var before, q := List(), queue;
      slots[i] := Slot(addr, true);
      queue := queue + [i];
      num := num + 1;
      assert forall j :: 0 <= j < |q| ==> q[j] in q;
      assert Names(queue, slots[..]) == before + [addr];
      assert forall j :: 0 <= j < |q| ==> before[j] in before;
    }

    /** Taking the entry at position `i` off the list. */
    method DeleteAt(i: nat)
      requires Valid() && i < |queue|
      modifies `queue, `num, slots
      ensures Valid() && queue == old(queue[..i] + queue[i + 1..]) && List() == old(List()[..i]) + old(List()[i + 1..])
    {
      hide Names;
      ghost var before, q := List(), queue;
      var k := queue[i];
      slots[k] := slots[k].(valid := false);
      queue := queue[..i] + queue[i + 1..];
      num := num - 1;
      TakenOff(q, queue, i);
      assert Names(queue, slots[..]) == before[..i] + before[i + 1..];
    }

    /** `rtw_acl_remove_sta` for an existing period: the broadcast address stands for all. */
    method Remove(addr: Addr)
      requires Valid()
      modifies `queue, `num, slots
      ensures Valid() && List() == Without(old(List()), addr)
    {
      hide Names, Distinct, Without;
      var i := 0;
      ghost var k, l := 0, List();
      WithoutNone(addr);
      while i < |queue|
        invariant Valid() && i <= |queue| && k <= |l| && |queue| - i == |l| - k
        invariant List()[i..] == l[k..] && List()[..i] == Without(l[..k], addr)
        decreases |queue| - i
      {
        assert List()[i] == List()[i..][0] == l[k..][0] == l[k];
        WithoutOne(l, k, addr);
        if addr == BROADCAST || slots[queue[i]].addr == addr {
          assert queue[i] in queue;
          ghost var m := List();
          DeleteAt(i);
          Shifted(m, l, i, k);
        } else {
          Kept(List(), l, i, k);
          i := i + 1;
        }
        k := k + 1;
      }
      assert l[..k] == l && List()[..i] == List();
    }

    /** `rtw_macaddr_acl_clear`; the counter it checks is zero. */
    method Clear() returns (warned: bool)
      requires Valid()
      modifies this, slots
      ensures Valid() && List() == [] && mode == MODE_DISABLED && !warned
    {
      hide Names, Distinct;
      while queue != []
        invariant Valid()
        decreases |queue|
      {
        DeleteAt(0);
      }
      warned := num != 0;
      mode := MODE_DISABLED;
    }

    ghost predicate Permits(addr: Addr)
      requires Valid()
      reads this, slots
    {
      (mode == ACCEPT_UNLESS_LISTED ==> addr !in List()) && (mode == DENY_UNLESS_LISTED ==> addr in List())
    }

    /** `_rtw_access_ctrl` for an existing period. */
    method Allows(addr: Addr) returns (ok: bool)
      requires Valid()
      ensures ok <==> Permits(addr)
    {
      hide Names, Distinct;
      ok := true;
      if mode == ACCEPT_UNLESS_LISTED || mode == DENY_UNLESS_LISTED {
        var found := Listed(addr);
        ok := if mode == ACCEPT_UNLESS_LISTED then !found else found;
      }
    }
  }

  lemma TakenOff(q: seq<nat>, r: seq<nat>, i: nat)
    requires Distinct(q) && i < |q| && r == q[..i] + q[i + 1..]
    ensures Distinct(r) && forall e :: e in r <==> e in q && e != q[i]
  {
    assert forall j :: 0 <= j < |r| ==> r[j] == q[if j < i then j else j + 1];
    assert q == q[..i] + [q[i]] + q[i + 1..];
  }

  lemma WithoutNone(addr: Addr)
    ensures Without([], addr) == []
  {
  }

  lemma WithoutOne(l: seq<Addr>, k: nat, addr: Addr)
    requires k < |l|
    ensures Without(l[..k + 1], addr) == Without(l[..k], addr)
      + if addr == BROADCAST || l[k] == addr then [] else [l[k]]
  {
    assert l[..k + 1][..k] == l[..k];
  }

  lemma Shifted(m: seq<Addr>, l: seq<Addr>, i: nat, k: nat)
    requires i < |m| && k < |l| && m[i..] == l[k..]
    ensures var n := m[..i] + m[i + 1..];
      n[i..] == l[k + 1..] && n[..i] == m[..i] && m[..i] + [] == m[..i]
  {
    assert m[i..][1..] == m[i + 1..] && l[k..][1..] == l[k + 1..];
  }

  lemma Kept(m: seq<Addr>, l: seq<Addr>, i: nat, k: nat)
    requires i < |m| && k < |l| && m[i..] == l[k..]
    ensures m[i + 1..] == l[k + 1..] && m[..i + 1] == m[..i] + [l[k]]
  {
    assert m[i..][1..] == m[i + 1..] && l[k..][1..] == l[k + 1..] && m[i..][0] == l[k..][0];
  }

  // --- Sixteen slots ----------------------------------------------------------------------------

  ghost function Elems(q: seq<nat>): (r: set<nat>)
    ensures forall e :: e in r <==> e in q
  {
    if q == [] then {}
    else
      assert q == q[..|q| - 1] + [q[|q| - 1]];
      Elems(q[..|q| - 1]) + {q[|q| - 1]}
  }

  ghost function Upto(n: nat): (r: set<nat>)
    ensures forall e :: e in r <==> 0 <= e < n
    ensures |r| == n
  {
    if n == 0 then {} else Upto(n - 1) + {n - 1}
  }

  lemma {:induction false} DistinctSize(q: seq<nat>)
    requires Distinct(q)
    ensures |Elems(q)| == |q|
  {
    if q != [] {
      DistinctSize(q[..|q| - 1]);
    }
  }

  lemma SubsetSize(a: set<nat>, b: set<nat>)
    requires a <= b
    ensures |a| <= |b|
  {
    assert b == a + (b - a);
  }

  lemma InRange(q: seq<nat>, n: nat)
    requires Distinct(q) && Below(q, n)
    ensures |q| <= n
  {
    hide Distinct;
    DistinctSize(q);
    SubsetSize(Elems(q), Upto(n));
  }

  lemma AllIn(q: seq<nat>, n: nat)
    requires Distinct(q) && forall i :: 0 <= i < n ==> i in q
    ensures |q| >= n
  {
    hide Distinct;
    DistinctSize(q);
    SubsetSize(Upto(n), Elems(q));
  }

  // --- Two pools --------------------------------------------------------------------------------

  /** `rtw_acl_add_sta`. */
  method AddSta(pools: seq<Pool>, period: nat, addr: Addr) returns (ret: int)
    requires |pools| == PERIOD_NUM && (period < PERIOD_NUM ==> pools[period].Valid())
    modifies if period < PERIOD_NUM then {pools[period], pools[period].slots} else {}
    ensures period >= PERIOD_NUM ==> ret == -1
    ensures period < PERIOD_NUM ==>
      && pools[period].Valid()
      && ret == (if addr !in old(pools[period].List()) && |old(pools[period].List())| == NUM_ACL then -1 else 0)
      && pools[period].List() == old(pools[period].List())
         + if ret == 0 && addr !in old(pools[period].List()) then [addr] else []
  {
    if period >= PERIOD_NUM {
      ret := -1;
    } else {
      ret := pools[period].Add(addr);
    }
  }

  /** `rtw_access_ctrl`: both lists must allow the address. */
  method AccessCtrl(pools: seq<Pool>, addr: Addr) returns (ok: bool)
    requires |pools| == PERIOD_NUM && pools[0].Valid() && pools[1].Valid()
    ensures ok <==> pools[0].Permits(addr) && pools[1].Permits(addr)
  {
    ok := pools[0].Allows(addr);
    if ok {
      ok := pools[1].Allows(addr);
    }
  }
}
