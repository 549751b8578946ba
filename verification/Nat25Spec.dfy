/**
  What the NAT2.5 database means: a map from network addresses (of any type `A`) to the MAC address it was last
  seen with, the time it was last seen and a use count, and what each operation does to it.
 */
module Nat25Spec {
  import opened Arithmetic

  type Byte = bv8

  const ETH_ALEN := 6
  const NAT25_HASH_SIZE := 16
  const NAT25_AGEING_TIME := 300

  /** A MAC address, byte by byte. */
  datatype Mac = Mac(b0: Byte, b1: Byte, b2: Byte, b3: Byte, b4: Byte, b5: Byte)
  {
    function Bytes(): seq<Byte> { [b0, b1, b2, b3, b4, b5] }
  }

  /** The kernel's tick counter: an `unsigned long` of 64 or 32 bits that wraps, `hz` ticks to
      the second. */
  datatype Clock = Clock(wide: bool, hz: nat) {
    /** Half of the counter's range. */
    function Half(): nat {
      if wide then 0x8000_0000_0000_0000 else 0x8000_0000
    }

    ghost predicate Ok() { Ageing() < Half() }

    function Ageing(): nat { NAT25_AGEING_TIME * hz }

    /** Reduction to the width of the counter. */
    function Wrap(x: int): nat {
      if wide then x % 0x1_0000_0000_0000_0000 else x % 0x1_0000_0000
    }

    /** `time_before_eq(seen, jiffies - NAT25_AGEING_TIME * HZ)` on wrapping words. */
    predicate Expired(seen: int, now: int) {
      Wrap(now - Ageing() - seen) < Half()
    }
  }

  datatype Record = Record(mac: Mac, seen: nat, uses: int)

  type Database<A> = map<A, Record>

  /** Insertion keeps the use count of a known address and starts a new one at 1; when the
      entry cannot be allocated a new address is not recorded. */
  function Inserted<A(==, !new)>(db: Database<A>, addr: A, mac: Mac, now: nat, memory: bool): Database {
    if addr in db then db[addr := db[addr].(mac := mac, seen := now)]
    else if memory then db[addr := Record(mac, now, 1)]
    else db
  }

  function Bumped<A(==, !new)>(db: Database<A>, addr: A): Database<A>
    requires addr in db
  {
    db[addr := db[addr].(uses := db[addr].uses + 1)]
  }

  function LookedUp<A(==, !new)>(ck: Clock, db: Database<A>, addr: A, now: nat): Database<A>
    requires ck.Ok()
  {
    if addr in db && !ck.Expired(db[addr].seen, now)
    then Bumped(db, addr)
    else db
  }

  /** Traffic that bypasses the table through the shortcut still renews the entry. */
  function Touched<A(==, !new)>(db: Database<A>, addr: A, now: nat): Database<A> {
    if addr in db then db[addr := db[addr].(seen := now)] else db
  }

  lemma UntouchedFacts<A(!new)>(db: Database<A>, addr: A, now: nat)
    requires addr !in db
    ensures Touched(db, addr, now) == db
  {
  }

  /** An expire pass counts every expired entry down and forgets those that reach zero. */
  function Expire1(ck: Clock, r: Record, now: nat): Record
    requires ck.Ok()
  {
    if ck.Expired(r.seen, now) then r.(uses := r.uses - 1) else r
  }

  predicate Forgotten(ck: Clock, r: Record, now: nat)
    requires ck.Ok()
  {
    ck.Expired(r.seen, now) && r.uses == 1
  }

  function ExpirePass<A(==, !new)>(ck: Clock, db: Database<A>, now: nat): Database<A>
    requires ck.Ok()
  {
    map addr | addr in db && !Forgotten(ck, db[addr], now) :: Expire1(ck, db[addr], now)
  }

  /** What an expire pass does to one address. */
  function ExpireAt<A(==, !new)>(ck: Clock, db: Database<A>, addr: A, now: nat): Database<A>
    requires ck.Ok() && addr in db
  {
    if Forgotten(ck, db[addr], now) then db - {addr} else db[addr := Expire1(ck, db[addr], now)]
  }

  /** An expire pass that has dealt with exactly the addresses outside `rest`. */
  function PartPass<A(==, !new)>(ck: Clock, db: Database<A>, rest: set<A>, now: nat): Database<A>
    requires ck.Ok()
  {
    map addr | addr in db && (addr in rest || !Forgotten(ck, db[addr], now))
      :: if addr in rest then db[addr] else Expire1(ck, db[addr], now)
  }

  lemma PartPassStep<A(!new)>(ck: Clock, db: Database<A>, rest: set<A>, addr: A, now: nat)
    requires ck.Ok() && addr in db && addr in rest
    ensures ExpireAt(ck, PartPass(ck, db, rest, now), addr, now) == PartPass(ck, db, rest - {addr}, now)
  {
  }

  lemma PartPassEnds<A(!new)>(ck: Clock, db: Database<A>, now: nat)
    requires ck.Ok()
    ensures PartPass(ck, db, db.Keys, now) == db
    ensures PartPass(ck, db, {}, now) == ExpirePass(ck, db, now)
  {
  }

  /** Every recorded address has been used at least once. */
  ghost predicate Counted<A(!new)>(db: Database<A>) {
    forall addr :: addr in db ==> db[addr].uses >= 1
  }

  // --- Wrap-around of the tick counter ----------------------------------------------------

  lemma WrapShift(ck: Clock, x: int, y: int, q: int)
    requires x == y + 2 * ck.Half() * q
    ensures ck.Wrap(x) == ck.Wrap(y)
  {
    ModShift(y, q, 2 * ck.Half());
    assert y + q * (2 * ck.Half()) == x;
  }

  lemma WrapQuotient(ck: Clock, x: int) returns (q: int)
    ensures ck.Wrap(x) == x - 2 * ck.Half() * q
  {
    q := if ck.wide then x / 0x1_0000_0000_0000_0000 else x / 0x1_0000_0000;
  }

  /** The wrapped comparison looks only at the elapsed time, wrapped. */
  lemma ExpiredByElapsed(ck: Clock, seen: nat, now: nat)
    ensures ck.Wrap(ck.Wrap(now) - ck.Ageing() - ck.Wrap(seen)) == ck.Wrap(now - seen - ck.Ageing())
  {
    hide ck.Wrap, ck.Ageing;
    var q := WrapQuotient(ck, seen);
    var p := WrapQuotient(ck, now);
    WrapShift(ck, ck.Wrap(now) - ck.Ageing() - ck.Wrap(seen), now - seen - ck.Ageing(), q - p);
  }

  lemma WrapSmall(ck: Clock, d: int)
    requires -2 * ck.Half() <= d < 2 * ck.Half()
    ensures ck.Wrap(d) == if d >= 0 then d else d + 2 * ck.Half()
  {
  }

  /** As long as less than half a counter period lies beyond the ageing time, the test says
      exactly "not seen for the ageing time", whatever wraps in between. */
  lemma ExpiredExact(ck: Clock, seen: nat, now: nat)
    requires ck.Ok() && seen <= now < seen + ck.Ageing() + ck.Half()
    ensures ck.Expired(ck.Wrap(seen), ck.Wrap(now)) <==> now - seen >= ck.Ageing()
  {
    hide ck.Wrap;
    ExpiredByElapsed(ck, seen, now);
    WrapSmall(ck, now - seen - ck.Ageing());
  }

  /** Beyond that range the answer flips: an entry left alone for half a counter period past
      the ageing time counts as fresh again, until the counter has gone round. */
  lemma ExpiredFlips(ck: Clock, seen: nat, now: nat)
    requires ck.Ok()
    requires seen + ck.Ageing() + ck.Half() <= now < seen + ck.Ageing() + 2 * ck.Half()
    ensures !ck.Expired(ck.Wrap(seen), ck.Wrap(now))
  {
    hide ck.Wrap;
    ExpiredByElapsed(ck, seen, now);
    WrapSmall(ck, now - seen - ck.Ageing());
  }

  // --- Whole runs -----------------------------------------------------------------------

  datatype Op<A> =
    | Insert(addr: A, mac: Mac, memory: bool)
    | Lookup(addr: A)
    | Touch(addr: A)
    | ExpireAll
    | Cleanup

  /** One operation, at tick `t`. */
  datatype Event<A> = Event(op: Op<A>, t: nat)

  function Do<A(==, !new)>(ck: Clock, db: Database<A>, e: Event<A>): Database<A>
    requires ck.Ok()
  {
    var now := ck.Wrap(e.t);
    match e.op
    case Insert(addr, mac, memory) => Inserted(db, addr, mac, now, memory)
    case Lookup(addr) => LookedUp(ck, db, addr, now)
    case Touch(addr) => Touched(db, addr, now)
    case ExpireAll => ExpirePass(ck, db, now)
    case Cleanup => map[]
  }

  function Run<A(==, !new)>(ck: Clock, db: Database<A>, es: seq<Event<A>>): Database<A>
    requires ck.Ok()
    decreases |es|
  {
    if es == [] then db else Run(ck, Do(ck, db, es[0]), es[1..])
  }

  lemma {:induction false} RunSnoc<A(!new)>(ck: Clock, db: Database<A>, es: seq<Event<A>>, e: Event<A>)
    requires ck.Ok()
    ensures Run(ck, db, es + [e]) == Do(ck, Run(ck, db, es), e)
    decreases |es|
  {
    if es == [] {
      assert Run(ck, Do(ck, db, e), []) == Do(ck, db, e);
    } else {
      assert (es + [e])[1..] == es[1..] + [e];
      RunSnoc(ck, Do(ck, db, es[0]), es[1..], e);
    }
  }

  lemma {:induction false} RunKeepsCounted<A(!new)>(ck: Clock, db: Database<A>, es: seq<Event<A>>)
    requires ck.Ok() && Counted(db)
    ensures Counted(Run(ck, db, es))
    decreases |es|
  {
    if es != [] {
      assert Counted(Do(ck, db, es[0]));
      RunKeepsCounted(ck, Do(ck, db, es[0]), es[1..]);
    }
  }

  function ExpirePasses<A(==, !new)>(es: seq<Event<A>>): nat {
    if es == [] then 0 else (if es[0].op.ExpireAll? then 1 else 0) + ExpirePasses(es[1..])
  }

  /** Nothing in `es` renews `addr` or empties the table. */
  ghost predicate LeftAlone<A(!new)>(es: seq<Event<A>>, addr: A) {
    forall e :: e in es ==> !e.op.Cleanup? && (e.op.Insert? || e.op.Touch? ==> e.op.addr != addr)
  }

  /** The whole of `es` happens while the entry last seen at tick `t0` has aged out. */
  ghost predicate WhileExpired<A(!new)>(ck: Clock, es: seq<Event<A>>, t0: nat) {
    forall e :: e in es ==> t0 + ck.Ageing() <= e.t < t0 + ck.Ageing() + ck.Half()
  }

  /** The whole of `es` happens before the entry last seen at tick `t0` has aged out. */
  ghost predicate WhileFresh<A(!new)>(ck: Clock, es: seq<Event<A>>, t0: nat) {
    forall e :: e in es ==> t0 <= e.t < t0 + ck.Ageing()
  }

  /** One event on an aged-out entry: only an expire pass changes it, by one. */
  lemma AgedStep<A(!new)>(ck: Clock, db: Database<A>, e: Event<A>, addr: A, t0: nat)
    requires ck.Ok() && LeftAlone([e], addr) && WhileExpired(ck, [e], t0)
    requires addr in db && db[addr].seen == ck.Wrap(t0) && db[addr].uses >= 1
    ensures var db' := Do(ck, db, e);
      var n := if e.op.ExpireAll? then 1 else 0;
      if n < db[addr].uses then addr in db' && db'[addr] == db[addr].(uses := db[addr].uses - n)
      else addr !in db'
  {
    assert e in [e];
    ExpiredExact(ck, t0, e.t);
  }

  /** An address that is absent and not inserted stays absent. */
  lemma {:induction false} AbsentStaysAbsent<A(!new)>(ck: Clock, db: Database<A>, es: seq<Event<A>>, addr: A)
    requires ck.Ok() && LeftAlone(es, addr) && addr !in db
    ensures addr !in Run(ck, db, es)
    decreases |es|
  {
    if es != [] {
      assert es[0] in es && forall e :: e in es[1..] ==> e in es;
      AbsentStaysAbsent(ck, Do(ck, db, es[0]), es[1..], addr);
    }
  }

  /** An aged-out entry that is not inserted again is forgotten on exactly its use-count-th
      further expire pass, whatever else happens in between. */
  lemma {:induction false} AgedEntryCountsDown<A(!new)>(ck: Clock, db: Database<A>, es: seq<Event<A>>, addr: A, t0: nat)
    requires ck.Ok() && LeftAlone(es, addr) && WhileExpired(ck, es, t0)
    requires addr in db && db[addr].seen == ck.Wrap(t0) && db[addr].uses >= 1
    ensures addr in Run(ck, db, es) <==> ExpirePasses(es) < db[addr].uses
    ensures addr in Run(ck, db, es) ==>
      Run(ck, db, es)[addr] == db[addr].(uses := db[addr].uses - ExpirePasses(es))
    decreases |es|
  {
    if es != [] {
      var db' := Do(ck, db, es[0]);
      assert es[0] in es && forall e :: e in es[1..] ==> e in es;
      AgedStep(ck, db, es[0], addr, t0);
      if addr in db' {
        AgedEntryCountsDown(ck, db', es[1..], addr, t0);
      } else {
        AbsentStaysAbsent(ck, db', es[1..], addr);
      }
    }
  }

  function Lookups<A(==, !new)>(es: seq<Event<A>>, addr: A): nat {
    if es == [] then 0 else (if es[0].op == Lookup(addr) then 1 else 0) + Lookups(es[1..], addr)
  }

  /** A fresh entry is never forgotten: expire passes leave it alone, and each lookup of it
      adds one use. */
  lemma {:induction false} FreshEntryStays<A(!new)>(ck: Clock, db: Database<A>, es: seq<Event<A>>, addr: A, t0: nat)
    requires ck.Ok() && LeftAlone(es, addr) && WhileFresh(ck, es, t0)
    requires addr in db && db[addr].seen == ck.Wrap(t0)
    ensures addr in Run(ck, db, es)
    ensures Run(ck, db, es)[addr] == db[addr].(uses := db[addr].uses + Lookups(es, addr))
    decreases |es|
  {
    if es != [] {
      assert es[0] in es && forall e :: e in es[1..] ==> e in es;
      ExpiredExact(ck, t0, es[0].t);
      FreshEntryStays(ck, Do(ck, db, es[0]), es[1..], addr, t0);
    }
  }

  // --- The shortcut of the transmit path ----------------------------------------------------

  const NO_MAC := Mac(0, 0, 0, 0, 0, 0)
  const NO_IP: seq<Byte> := [0, 0, 0, 0]

  /** The station that sent last: its addresses, and the recorded address its traffic renews, if
      there is one. */
  datatype Shortcut<A> =
    | Unset(mac: Mac, ip: seq<Byte>)
    | Set(addr: A, mac: Mac, ip: seq<Byte>)

  datatype Table<A> = Table(db: Database<A>, sc: Shortcut<A>)

  /** The shortcut after the table became `db`: it is forgotten with the address. */
  function Kept<A(==, !new)>(sc: Shortcut<A>, db: Database<A>): Shortcut<A> {
    if sc.Set? && sc.addr !in db then Unset(NO_MAC, NO_IP) else sc
  }

  lemma KeptTwice<A(!new)>(sc: Shortcut<A>, db: Database<A>, d: Database<A>)
    requires d.Keys <= db.Keys
    ensures Kept(Kept(sc, db), d) == Kept(sc, d)
  {
  }

  /** An IP packet from a bridged station with MAC address `src` and network address `addr`. */
  function Sent<A(==, !new)>(s: Table<A>, src: Mac, ip: seq<Byte>, addr: A, now: nat): Table<A> {
    if src == s.sc.mac then
      if s.sc.Set? then Table(Touched(s.db, s.sc.addr, now), s.sc) else Table(s.db, Unset(NO_MAC, NO_IP))
    else if addr in s.db then Table(Touched(s.db, addr, now), Set(addr, src, ip))
    else Table(s.db, Unset(s.sc.mac, s.sc.ip))
  }

  datatype Step<A> =
    | On(e: Event<A>)
    | Packet(src: Mac, ip: seq<Byte>, addr: A, t: nat)

  function Serve<A(==, !new)>(ck: Clock, s: Table<A>, st: Step<A>): Table<A>
    requires ck.Ok()
  {
    match st
    case On(e) => var db := Do(ck, s.db, e); Table(db, Kept(s.sc, db))
    case Packet(src, ip, addr, t) => Sent(s, src, ip, addr, ck.Wrap(t))
  }

  function ServeAll<A(==, !new)>(ck: Clock, s: Table<A>, sts: seq<Step<A>>): Table<A>
    requires ck.Ok()
    decreases |sts|
  {
    if sts == [] then s else Serve(ck, ServeAll(ck, s, sts[..|sts| - 1]), sts[|sts| - 1])
  }

  /** What a step is to the map alone: a packet renews one address or none. */
  function AsEvents<A(==, !new)>(s: Table<A>, st: Step<A>): seq<Event<A>> {
    match st
    case On(e) => [e]
    case Packet(src, _, addr, t) =>
      if src != s.sc.mac then [Event(Touch(addr), t)]
      else if s.sc.Set? then [Event(Touch(s.sc.addr), t)]
      else []
  }

  function AllEvents<A(==, !new)>(ck: Clock, s: Table<A>, sts: seq<Step<A>>): seq<Event<A>>
    requires ck.Ok()
    decreases |sts|
  {
    if sts == [] then []
    else
      var ps := sts[..|sts| - 1];
      AllEvents(ck, s, ps) + AsEvents(ServeAll(ck, s, ps), sts[|sts| - 1])
  }

  /** Whatever interleaves packets with the other operations: the shortcut never outlives its
      address, and the map is that of a run of the map alone, at the same ticks, so that what is
      proved above of those runs holds of these. */
  lemma {:induction false} ServedAsRun<A(!new)>(ck: Clock, s: Table<A>, sts: seq<Step<A>>)
    requires ck.Ok() && (s.sc.Set? ==> s.sc.addr in s.db)
    ensures var t := ServeAll(ck, s, sts);
      (t.sc.Set? ==> t.sc.addr in t.db) && t.db == Run(ck, s.db, AllEvents(ck, s, sts))
    decreases |sts|
  {
    hide Do, Run;
    if sts == [] {
      NoEvents(ck, s.db);
    } else {
      var ps, st := sts[..|sts| - 1], sts[|sts| - 1];
      ServedAsRun(ck, s, ps);
      var p, es := ServeAll(ck, s, ps), AllEvents(ck, s, ps);
      var xs := AsEvents(p, st);
      if xs == [] {
        assert es + xs == es;
      } else {
        RunSnoc(ck, s.db, es, xs[0]);
        OneEvent(ck, p, st);
        assert es + xs == es + [xs[0]];
      }
    }
  }

  lemma NoEvents<A(!new)>(ck: Clock, db: Database<A>)
    requires ck.Ok()
    ensures Run(ck, db, []) == db
  {
  }

  lemma OneEvent<A(!new)>(ck: Clock, s: Table<A>, st: Step<A>)
    requires ck.Ok() && AsEvents(s, st) != []
    ensures Serve(ck, s, st).db == Do(ck, s.db, AsEvents(s, st)[0])
  {
  }

  /** So an address that no packet renews while it is expired is forgotten in time, and with it the
      shortcut that named it. */
  lemma SilentStationForgotten<A(!new)>(ck: Clock, s: Table<A>, sts: seq<Step<A>>, addr: A, t0: nat)
    requires ck.Ok() && (s.sc.Set? ==> s.sc.addr in s.db)
    requires LeftAlone(AllEvents(ck, s, sts), addr) && WhileExpired(ck, AllEvents(ck, s, sts), t0)
    requires addr in s.db && s.db[addr].seen == ck.Wrap(t0) && s.db[addr].uses >= 1
    ensures var t := ServeAll(ck, s, sts);
      if ExpirePasses(AllEvents(ck, s, sts)) < s.db[addr].uses then addr in t.db
      else addr !in t.db && !(t.sc.Set? && t.sc.addr == addr)
  {
    hide ck.Wrap, Run, AllEvents, ServeAll;
    ServedAsRun(ck, s, sts);
    AgedEntryCountsDown(ck, s.db, AllEvents(ck, s, sts), addr, t0);
  }
}
