/**
  Channel settings of the interfaces that share one radio: when two can be grouped, how a
  requested one is fitted into a group, the soft AP's decision for a set of interfaces, and the
  union that the rest of the driver takes of them.
 */
module ChannelGroup {

  const BW_20 := 0
  const BW_40 := 1
  const BW_80 := 2
  const DONT_CARE := 0
  const LOWER := 1
  const UPPER := 2

  datatype Setting = Setting(ch: nat, bw: nat, offset: nat)

  /** `rtw_is_chbw_grouped`. */
  predicate Grouped(a: Setting, b: Setting) {
    a.ch == b.ch
    && (a.bw in {BW_40, BW_80} && b.bw in {BW_40, BW_80} ==> a.offset == b.offset)
  }

  /** `s` is in the group `g`: same channel, not wider, and if wide at all on the same side. */
  predicate Fits(s: Setting, g: Setting) {
    s.ch == g.ch && s.bw <= g.bw && (s.bw != BW_20 ==> s.offset == g.offset)
  }

  /** Members of a group can be grouped with it and with each other. */
  lemma FitsAreGrouped(s: Setting, t: Setting, g: Setting)
    requires Fits(s, g) && Fits(t, g)
    ensures Grouped(s, g) && Grouped(g, s) && Grouped(s, t)
  {
  }

  /** `rtw_get_offset_by_chbw`: on failure the offset is left as it was. */
  function OffsetFor(ch: nat, bw: nat, offset: nat): (r: nat)
    ensures offset <= UPPER ==> r <= UPPER
  {
    if bw == BW_20 then DONT_CARE
    else if bw >= BW_80 && ch <= 14 then offset
    else if 1 <= ch <= 4 then LOWER
    else if 5 <= ch <= 9 then (if offset == LOWER || offset == UPPER then offset else UPPER)
    else if 10 <= ch <= 13 then UPPER
    else if ch in {36, 44, 52, 60, 100, 108, 116, 124, 132, 140, 149, 157, 165, 173} then LOWER
    else if ch in {40, 48, 56, 64, 104, 112, 120, 128, 136, 144, 153, 161, 169, 177} then UPPER
    else offset
  }

  /** The channel has a side of its own, whatever was asked for. */
  predicate HasSide(ch: nat, bw: nat) {
    forall o :: 0 <= o <= UPPER ==> OffsetFor(ch, bw, o) != DONT_CARE && OffsetFor(ch, bw, o) <= UPPER
  }

  /** The side always leaves room for the secondary channel: four channel numbers up or down is
      in the 2.4 GHz band, and in the 5 GHz bands it is a channel whose side points back. */
  lemma SecondaryInBand(ch: nat, bw: nat, offset: nat)
    requires (bw == BW_40 || bw == BW_80) && offset <= UPPER && HasSide(ch, bw)
    ensures var o := OffsetFor(ch, bw, offset);
      var second := if o == LOWER then ch + 4 else ch - 4;
      && (ch <= 14 ==> bw == BW_40 && 1 <= second <= 13)
      && (ch > 14 ==> HasSide(second, bw) && OffsetFor(second, bw, offset) == if o == LOWER then UPPER else LOWER)
  {
    assert OffsetFor(ch, bw, DONT_CARE) != DONT_CARE;
  }

  /** `rtw_sync_chbw`: fit `req` into `g`, or widen `g` for it.  The group keeps its channel, is
      never narrowed, keeps its side if it is wide, and keeps every member it had. */
  method Sync(req: Setting, g: Setting) returns (r: Setting, h: Setting)
    requires req.bw <= BW_80 && g.bw <= BW_80
    ensures Fits(r, h) && h.ch == g.ch && h.bw == (if r.bw > g.bw then r.bw else g.bw)
    ensures g.bw != BW_20 ==> h.offset == g.offset
    ensures h != g ==> h == r
    ensures forall m :: Fits(m, g) ==> Fits(m, h)
    ensures r.bw <= req.bw
    ensures r.bw == req.bw <==> (req.bw == BW_20 ||
      (!(req.bw == BW_80 && g.ch <= 14)
       && (if g.bw == BW_20 then OffsetFor(g.ch, req.bw, req.offset) else g.offset) != DONT_CARE))
  {
    r := req.(ch := g.ch);
    h := g;
    if r.bw == BW_80 && g.ch <= 14 {
      r := r.(bw := BW_40);
    }
    if r.bw == BW_80 || r.bw == BW_40 {
      if g.bw == BW_40 || g.bw == BW_80 {
        r := r.(offset := g.offset);
      } else if g.bw == BW_20 {
        r := r.(offset := OffsetFor(r.ch, r.bw, r.offset));
      }
      if r.offset == DONT_CARE {
        r := r.(bw := BW_20);
      }
    } else if r.bw == BW_20 {
      r := r.(offset := DONT_CARE);
    }
    if r.bw > h.bw {
      h := h.(bw := r.bw, offset := r.offset);
    }
  }

  /** Fitting any list of requests into a group, one after the other. */
  method SyncAll(reqs: seq<Setting>, g: Setting) returns (rs: seq<Setting>, h: Setting)
    requires g.bw <= BW_80 && forall r :: r in reqs ==> r.bw <= BW_80
    ensures |rs| == |reqs| && forall i :: 0 <= i < |rs| ==> Fits(rs[i], h) && rs[i].bw <= reqs[i].bw
    ensures h.ch == g.ch && g.bw <= h.bw <= BW_80 && (g.bw != BW_20 ==> h.offset == g.offset)
    ensures h == g || h in rs
    ensures forall m :: Fits(m, g) ==> Fits(m, h)
  {
    rs, h := [], g;
    for i := 0 to |reqs|
      invariant |rs| == i && forall j :: 0 <= j < i ==> Fits(rs[j], h) && rs[j].bw <= reqs[j].bw
      invariant h.ch == g.ch && g.bw <= h.bw <= BW_80 && (g.bw != BW_20 ==> h.offset == g.offset)
      invariant h == g || h in rs
      invariant forall m :: Fits(m, g) ==> Fits(m, h)
    {
      var r;
      r, h := Sync(reqs[i], h);
      rs := rs + [r];
    }
  }

  /** What an interface gets from the decision. */
  function Assigned(d: Setting, u: Setting): Setting {
    var bw := if d.bw > u.bw then u.bw else d.bw;
    Setting(u.ch, bw, if bw == BW_20 then DONT_CARE else u.offset)
  }

  /** The loop at `update_bss_chbw`. */
  method UpdateBss(dec: array<Setting>, selected: seq<bool>, u: Setting)
    requires |selected| == dec.Length
    modifies dec
    ensures forall i :: 0 <= i < dec.Length ==> dec[i] == if selected[i] then Assigned(old(dec[i]), u) else old(dec[i])
  {
    for i := 0 to dec.Length
      invariant forall j :: 0 <= j < i ==> dec[j] == if selected[j] then Assigned(old(dec[j]), u) else old(dec[j])
      invariant forall j :: i <= j < dec.Length ==> dec[j] == old(dec[j])
    {
      if selected[i] {
        var d := dec[i].(ch := u.ch);
        if d.bw > u.bw {
          d := d.(bw := u.bw);
        }
        dec[i] := d.(offset := if d.bw == BW_20 then DONT_CARE else u.offset);
      }
    }
  }

  // --- The union ------------------------------------------------------------------------------

  datatype Union = Nothing | Conflict | Found(num: nat, s: Setting)

  /** One more active interface. */
  function Extend(f: Union, x: Setting): Union {
    match f
    case Nothing => Found(1, x)
    case Conflict => Conflict
    case Found(n, s) =>
      if s.ch != x.ch then Conflict
      else if s.bw < x.bw then Found(n + 1, Setting(s.ch, x.bw, x.offset))
      else if s.bw == x.bw && s.offset != x.offset then Conflict
      else Found(n + 1, s)
  }

  function Walk(xs: seq<Setting>): Union {
    if xs == [] then Nothing else Extend(Walk(xs[..|xs| - 1]), xs[|xs| - 1])
  }

  function Active(xs: seq<Setting>, active: seq<bool>): seq<Setting>
    requires |xs| == |active|
  {
    if xs == [] then []
    else Active(xs[..|xs| - 1], active[..|xs| - 1]) + if active[|xs| - 1] then [xs[|xs| - 1]] else []
  }

  /** `rtw_mi_get_ch_setting_union_by_ifbmp`: the number of interfaces in the union, or 0 with
      the default setting. */
  method UnionOf(xs: seq<Setting>, active: seq<bool>) returns (num: nat, u: Setting)
    requires |xs| == |active|
    ensures var w := Walk(Active(xs, active));
      if w.Found? then num == w.num && u == w.s else num == 0 && u == Setting(0, BW_20, DONT_CARE)
  {
    var ret := Setting(0, BW_20, DONT_CARE);
    num := 0;
    var i, stop := 0, false;
    while i < |xs| && !stop
      invariant i <= |xs|
      invariant var w := Walk(Active(xs[..i], active[..i]));
        if stop then num == 0 && w == Conflict
        else if num == 0 then w == Nothing else w == Found(num, ret)
      decreases |xs| - i, !stop
    {
      PrefixOne(xs, active, i);
      if active[i] {
        if num == 0 {
          ret, num := xs[i], 1;
        } else if ret.ch != xs[i].ch {
          num, stop := 0, true;
        } else if ret.bw < xs[i].bw {
          ret, num := ret.(bw := xs[i].bw, offset := xs[i].offset), num + 1;
        } else if ret.bw == xs[i].bw && ret.offset != xs[i].offset {
          num, stop := 0, true;
        } else {
          num := num + 1;
        }
      }
      i := i + 1;
    }
    if stop {
      ConflictStays(xs, active, i);
    } else {
      assert xs[..i] == xs && active[..i] == active;
    }
    u := if num > 0 then ret else Setting(0, BW_20, DONT_CARE);
  }

  lemma PrefixOne(xs: seq<Setting>, active: seq<bool>, i: nat)
    requires |xs| == |active| && i < |xs|
    ensures Active(xs[..i + 1], active[..i + 1]) == Active(xs[..i], active[..i]) + if active[i] then [xs[i]] else []
    ensures Walk(Active(xs[..i + 1], active[..i + 1]))
         == if active[i] then Extend(Walk(Active(xs[..i], active[..i])), xs[i]) else Walk(Active(xs[..i], active[..i]))
  {
    assert xs[..i + 1][..i] == xs[..i] && active[..i + 1][..i] == active[..i];
    var a := Active(xs[..i], active[..i]);
    assert (a + [xs[i]])[..|a|] == a;
    assert a + [] == a;
  }

  lemma {:induction false} ConflictStays(xs: seq<Setting>, active: seq<bool>, i: nat)
    requires |xs| == |active| && i <= |xs| && Walk(Active(xs[..i], active[..i])) == Conflict
    ensures Walk(Active(xs, active)) == Conflict
    decreases |xs| - i
  {
    if i < |xs| {
      PrefixOne(xs, active, i);
      ConflictStays(xs, active, i + 1);
    } else {
      assert xs[..i] == xs && active[..i] == active;
    }
  }

  /** One channel, and one side per width. */
  ghost predicate Uniform(xs: seq<Setting>) {
    forall a, b :: a in xs && b in xs ==> a.ch == b.ch && (a.bw == b.bw ==> a.offset == b.offset)
  }

  lemma {:induction false} UniformUnion(xs: seq<Setting>)
    requires Uniform(xs) && xs != []
    ensures var w := Walk(xs);
      && w.Found? && w.num == |xs| && w.s in xs && forall x :: x in xs ==> x.bw <= w.s.bw
  {
    var ps, x := xs[..|xs| - 1], xs[|xs| - 1];
    assert xs == ps + [x];
    if ps != [] {
      UniformUnion(ps);
    }
  }

  /** The union exists whatever the order of the interfaces if and only if they are uniform:
      the walk compares with the widest setting so far only, so another order may miss a clash. */
  lemma UnionInEveryOrder(xs: seq<Setting>)
    requires xs != []
    ensures (forall ys :: multiset(ys) == multiset(xs) ==> Walk(ys).Found?) <==> Uniform(xs)
  {
    if Uniform(xs) {
      forall ys | multiset(ys) == multiset(xs) ensures Walk(ys).Found? {
        SameElements(xs, ys);
        UniformUnion(ys);
      }
    } else {
      var a, b :| a in xs && b in xs && !(a.ch == b.ch && (a.bw == b.bw ==> a.offset == b.offset));
      var ys := TwoFirst(xs, a, b);
      ClashFirst(ys);
      assert multiset(ys) == multiset(xs) && !Walk(ys).Found?;
    }
  }

  lemma SameElements(xs: seq<Setting>, ys: seq<Setting>)
    requires multiset(ys) == multiset(xs)
    ensures |ys| == |xs| && forall x :: x in ys <==> x in xs
  {
    assert |multiset(ys)| == |multiset(xs)|;
    forall x ensures x in ys <==> x in xs {
      assert x in ys <==> x in multiset(ys);
      assert x in xs <==> x in multiset(xs);
    }
  }

  /** The same settings with two given ones in front. */
  lemma TwoFirst(xs: seq<Setting>, a: Setting, b: Setting) returns (ys: seq<Setting>)
    requires a in xs && b in xs && a != b
    ensures multiset(ys) == multiset(xs) && |ys| >= 2 && ys[0] == a && ys[1] == b
  {
    var i :| 0 <= i < |xs| && xs[i] == a;
    TakenOut(xs, i);
    var rest := xs[..i] + xs[i + 1..];
    assert b in multiset(rest);
    var j :| 0 <= j < |rest| && rest[j] == b;
    TakenOut(rest, j);
    var others := rest[..j] + rest[j + 1..];
    ys := [a] + ([b] + others);
    assert multiset(ys) == multiset([a]) + (multiset([b]) + multiset(others));
  }

  lemma TakenOut(xs: seq<Setting>, i: nat)
    requires i < |xs|
    ensures multiset(xs) == multiset([xs[i]]) + multiset(xs[..i] + xs[i + 1..])
  {
    assert xs == xs[..i] + ([xs[i]] + xs[i + 1..]);
    assert multiset(xs) == multiset(xs[..i]) + (multiset([xs[i]]) + multiset(xs[i + 1..]));
    assert multiset(xs[..i] + xs[i + 1..]) == multiset(xs[..i]) + multiset(xs[i + 1..]);
  }

  lemma {:induction false} ClashFirst(ys: seq<Setting>)
    requires |ys| >= 2 && !(ys[0].ch == ys[1].ch && (ys[0].bw == ys[1].bw ==> ys[0].offset == ys[1].offset))
    ensures Walk(ys) == Conflict
  {
    if |ys| == 2 {
      var one := ys[..|ys| - 1];
      assert one[..0] == [] && Walk(one) == Extend(Nothing, ys[0]);
    } else {
      ClashFirst(ys[..|ys| - 1]);
    }
  }

  /** And then the order does not matter for the result either. */
  lemma UnionIgnoresOrder(xs: seq<Setting>, ys: seq<Setting>)
    requires Uniform(xs) && xs != [] && multiset(ys) == multiset(xs)
    ensures Walk(ys) == Walk(xs)
  {
    SameElements(xs, ys);
    UniformUnion(xs);
    UniformUnion(ys);
  }

  ghost predicate OneChannel(xs: seq<Setting>) {
    forall a, b :: a in xs && b in xs ==> a.ch == b.ch
  }

  /** The widest settings are on one side. */
  ghost predicate OneTop(xs: seq<Setting>) {
    forall a, b :: a in xs && b in xs && a.bw == b.bw && (forall x :: x in xs ==> x.bw <= a.bw) ==> a.offset == b.offset
  }

  /** A union is one of the widest settings, and no other is on the other side. */
  lemma {:induction false} FoundFacts(xs: seq<Setting>)
    requires Walk(xs).Found?
    ensures var s := Walk(xs).s;
      && s in xs
      && forall x :: x in xs ==> x.ch == s.ch && x.bw <= s.bw && (x.bw == s.bw ==> x.offset == s.offset)
  {
    var ps, x := xs[..|xs| - 1], xs[|xs| - 1];
    assert xs == ps + [x];
    if ps != [] {
      FoundFacts(ps);
    }
  }

  /** With a setting no other is wider than in front, nothing narrower is looked at. */
  lemma {:induction false} WidestFirst(xs: seq<Setting>)
    requires xs != [] && OneChannel(xs)
    requires forall x :: x in xs ==> x.bw <= xs[0].bw && (x.bw == xs[0].bw ==> x.offset == xs[0].offset)
    ensures Walk(xs) == Found(|xs|, xs[0])
  {
    var ps, x := xs[..|xs| - 1], xs[|xs| - 1];
    assert xs == ps + [x];
    if ps != [] {
      WidestFirst(ps);
    }
  }

  lemma {:induction false} Widest(xs: seq<Setting>) returns (m: Setting)
    requires xs != []
    ensures m in xs && forall x :: x in xs ==> x.bw <= m.bw
  {
    if |xs| == 1 {
      m := xs[0];
    } else {
      m := Widest(xs[1..]);
      if xs[0].bw > m.bw {
        m := xs[0];
      }
      assert xs == [xs[0]] + xs[1..];
    }
  }

  /** The result is the same in every order if and only if the settings are uniform, or are on
      different channels, or two of the widest are on different sides; in the last two cases
      there is never a union. */
  lemma OrderIrrelevantIff(xs: seq<Setting>)
    requires xs != []
    ensures (forall ys :: multiset(ys) == multiset(xs) ==> Walk(ys) == Walk(xs))
      <==> Uniform(xs) || !OneChannel(xs) || !OneTop(xs)
  {
    hide Uniform, OneChannel, OneTop, Walk;
    if Uniform(xs) {
      forall ys | multiset(ys) == multiset(xs) ensures Walk(ys) == Walk(xs) {
        UnionIgnoresOrder(xs, ys);
      }
    } else if !OneChannel(xs) || !OneTop(xs) {
      NeverUnion(xs);
      forall ys | multiset(ys) == multiset(xs) ensures Walk(ys) == Walk(xs) {
        SameElements(xs, ys);
        SameShape(xs, ys);
        NeverUnion(ys);
      }
    } else {
      var ys, zs := TwoOrders(xs);
      assert multiset(ys) == multiset(xs) == multiset(zs);
    }
  }

  lemma SameShape(xs: seq<Setting>, ys: seq<Setting>)
    requires forall x :: x in ys <==> x in xs
    ensures OneChannel(ys) == OneChannel(xs) && OneTop(ys) == OneTop(xs)
  {
  }

  lemma NeverUnion(xs: seq<Setting>)
    requires xs != [] && (!OneChannel(xs) || !OneTop(xs))
    ensures Walk(xs) == Conflict
  {
    WalkNonempty(xs);
    if Walk(xs).Found? {
      FoundFacts(xs);
    }
  }

  lemma WalkNonempty(xs: seq<Setting>)
    requires xs != []
    ensures !Walk(xs).Nothing?
  {
  }

  /** Otherwise one order has a union and another a conflict. */
  lemma TwoOrders(xs: seq<Setting>) returns (ys: seq<Setting>, zs: seq<Setting>)
    requires xs != [] && !Uniform(xs) && OneChannel(xs) && OneTop(xs)
    ensures multiset(ys) == multiset(xs) == multiset(zs) && Walk(ys).Found? && Walk(zs) == Conflict
  {
    var a, b :| a in xs && b in xs && !(a.ch == b.ch && (a.bw == b.bw ==> a.offset == b.offset));
    zs := TwoFirst(xs, a, b);
    ClashFirst(zs);
    var m := Widest(xs);
    var i :| 0 <= i < |xs| && xs[i] == m;
    TakenOut(xs, i);
    ys := [m] + (xs[..i] + xs[i + 1..]);
    assert multiset(ys) == multiset([m]) + multiset(xs[..i] + xs[i + 1..]);
    SameElements(xs, ys);
    SameShape(xs, ys);
    WidestFirst(ys);
  }

  /** Order matters in general: a 40 MHz interface on the other side than the group goes
      unnoticed behind an 80 MHz one. */
  lemma OrderMatters()
    ensures var l, w, u := Setting(36, BW_40, LOWER), Setting(36, BW_80, LOWER), Setting(36, BW_40, UPPER);
      Walk([l, w, u]) == Found(3, w) && Walk([l, u, w]) == Conflict
  {
    var l, w, u := Setting(36, BW_40, LOWER), Setting(36, BW_80, LOWER), Setting(36, BW_40, UPPER);
    assert [l, w, u][..2] == [l, w] && [l, u, w][..2] == [l, u] && [l, w][..1] == [l, u][..1] == [l] && [l][..0] == [];
    assert Walk([l]) == Found(1, l);
    assert Walk([l, w]) == Found(2, w);
  }

  /** After the decision, any active interfaces among the updated ones, in any order, have a
      union: the channel of the decision and the greatest of their widths, within the group. */
  lemma DecisionHasUnion(dec: seq<Setting>, u: Setting, xs: seq<Setting>)
    requires xs != [] && forall x :: x in xs ==> exists d :: d in dec && x == Assigned(d, u)
    ensures var w := Walk(xs);
      && w.Found? && w.num == |xs| && w.s in xs && Fits(w.s, u)
      && forall x :: x in xs ==> x.bw <= w.s.bw && Fits(x, w.s)
    ensures forall ys :: multiset(ys) == multiset(xs) ==> Walk(ys) == Walk(xs)
  {
    UniformUnion(xs);
    forall ys | multiset(ys) == multiset(xs) ensures Walk(ys) == Walk(xs) {
      UnionIgnoresOrder(xs, ys);
    }
  }
}
