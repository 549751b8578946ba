/**
  The traffic indication map: how the soft AP encodes its bitmap into the TIM element
  (section 8.4.2.7 of IEEE 802.11-2012) and how the element gets into the beacon.
 */
module Tim {
  import opened IeList
  import opened Sequences
  import opened IeEdit
  import opened BeaconIe

  const WLAN_EID_SSID: u8 := 0
  const WLAN_EID_SUPP_RATES: u8 := 1
  const WLAN_EID_DS_PARAMS: u8 := 3
  const WLAN_EID_TIM: u8 := 5

  // --- Bits -----------------------------------------------------------------------------------

  function Pow2(k: nat): nat
    requires k < 8
  {
    [1, 2, 4, 8, 16, 32, 64, 128][k]
  }

  predicate BitOf(b: u8, k: nat)
    requires k < 8
  {
    (b / Pow2(k)) % 2 == 1
  }

  /** `rtw_bmp_is_set`. */
  predicate IsSet(bmp: seq<u8>, id: nat) {
    id / 8 < |bmp| && BitOf(bmp[id / 8], id % 8)
  }

  // --- The specification: what a receiver reads from the element -----------------------------

  /** The bit for an association id in the body of a TIM element: id 0 is bit 0 of the control
      byte; the other ids are in the partial virtual bitmap, whose first byte is byte N1 of the
      whole map, N1 being the control byte without bit 0; what lies outside it is zero. */
  predicate Decoded(tim: seq<u8>, aid: nat)
    requires |tim| >= 4
  {
    if aid == 0 then tim[2] % 2 == 1
    else
      var n1 := tim[2] - tim[2] % 2;
      n1 <= aid / 8 < n1 + |tim| - 3 && BitOf(tim[3 + aid / 8 - n1], aid % 8)
  }

  /** Bytes `n1` to `n2` of the map are the ones to send: `n1` is even, everything before it
      and after `n2` is zero, and neither bound can be tightened. */
  ghost predicate Bounds(bmp: seq<u8>, n1: nat, n2: nat) {
    && n1 <= n2 < |bmp| && n1 % 2 == 0
    && (forall i :: 0 <= i < n1 ==> bmp[i] == 0)
    && (forall i :: n2 < i < |bmp| ==> bmp[i] == 0)
    && (n2 > 0 ==> bmp[n2] != 0)
    && (n2 > 0 ==> bmp[n1] != 0 || (n1 + 1 < |bmp| && bmp[n1 + 1] != 0))
  }

  lemma BoundsUnique(bmp: seq<u8>, n1: nat, n2: nat, m1: nat, m2: nat)
    requires Bounds(bmp, n1, n2) && Bounds(bmp, m1, m2)
    ensures n1 == m1 && n2 == m2
  {
  }

  /** The element that bounds `n1`, `n2` give. */
  function TimIe(dtimCnt: u8, dtimPeriod: u8, bmp: seq<u8>, n1: nat, n2: nat): Ie
    requires n1 <= n2 < |bmp| && n1 < 255 && n1 % 2 == 0
  {
    Ie(WLAN_EID_TIM, [dtimCnt, dtimPeriod, n1 + if IsSet(bmp, 0) then 1 else 0] + bmp[n1..n2 + 1])
  }

  /** Decoding recovers every bit of the map, and nothing beyond it. */
  lemma DecodesExactly(dtimCnt: u8, dtimPeriod: u8, bmp: seq<u8>, n1: nat, n2: nat, aid: nat)
    requires |bmp| <= 250 && Bounds(bmp, n1, n2)
    ensures TimIe(dtimCnt, dtimPeriod, bmp, n1, n2).Fits()
    ensures Decoded(TimIe(dtimCnt, dtimPeriod, bmp, n1, n2).data, aid) <==> IsSet(bmp, aid)
  {
    var tim := TimIe(dtimCnt, dtimPeriod, bmp, n1, n2).data;
    assert tim[2] - tim[2] % 2 == n1;
    var i := aid / 8;
    if n1 <= i <= n2 {
      assert tim[3 + i - n1] == bmp[i];
    } else if i < |bmp| {
      assert bmp[i] == 0;
    }
  }

  // --- rtw_set_tim_ie ---------------------------------------------------------------------------

  /** `rtw_bmp_not_empty`. */
  method NotEmpty(bmp: seq<u8>) returns (r: bool)
    ensures r <==> exists i :: 0 <= i < |bmp| && bmp[i] != 0
  {
    r := false;
    var i := 0;
    while i < |bmp| && !r
      invariant 0 <= i <= |bmp|
      invariant !r ==> forall j :: 0 <= j < i ==> bmp[j] == 0
      invariant r ==> exists j :: 0 <= j < |bmp| && bmp[j] != 0
      decreases |bmp| - i, !r
    {
      if bmp[i] != 0 { r := true; } else { i := i + 1; }
    }
  }

  /** The two scans of `rtw_set_tim_ie`. */
  method FindBounds(bmp: seq<u8>) returns (n1: nat, n2: nat)
    requires 1 <= |bmp|
    ensures Bounds(bmp, n1, n2)
  {
    var some := NotEmpty(bmp);
    if some {
      var i := 0;
      while i < |bmp| && bmp[i] == 0
        invariant 0 <= i <= |bmp| && forall j :: 0 <= j < i ==> bmp[j] == 0
      {
        i := i + 1;
      }
      n1 := i - i % 2;
      var k := |bmp| - 1;
      while k > 0 && bmp[k] == 0
        invariant 0 <= k < |bmp| && forall j :: k < j < |bmp| ==> bmp[j] == 0
      {
        k := k - 1;
      }
      n2 := k;
    } else {
      n1, n2 := 0, 0;
    }
  }

  /** `rtw_set_tim_ie`: the element as bytes. */
  method SetTimIe(dtimCnt: u8, dtimPeriod: u8, bmp: seq<u8>) returns (bytes: seq<u8>, ghost n1: nat, ghost n2: nat)
    requires 1 <= |bmp| <= 250
    ensures Bounds(bmp, n1, n2)
    ensures TimIe(dtimCnt, dtimPeriod, bmp, n1, n2).Fits()
    ensures bytes == EncIe(TimIe(dtimCnt, dtimPeriod, bmp, n1, n2))
  {
    var m1, m2 := FindBounds(bmp);
    n1, n2 := m1, m2;
    var bmpLen := m2 - m1 + 1;
    bytes := [WLAN_EID_TIM, 2 + 1 + bmpLen, dtimCnt, dtimPeriod, (if IsSet(bmp, 0) then 1 else 0) + m1]
             + bmp[m1..m1 + bmpLen];
  }

  // --- update_BCNTIM ------------------------------------------------------------------------------

  function Size(es: seq<Ie>, k: nat): nat {
    if k < |es| then 2 + |es[k].data| else 0
  }

  /** The driver's place for a new TIM element: behind the sizes of the SSID and rates elements,
      wherever they are, and of a DS parameter set, which it takes to be there. */
  function InsertOffset(es: seq<Ie>): nat {
    FIXED_IE_LENGTH + Size(es, FirstIndex(es, WLAN_EID_SSID)) + Size(es, FirstIndex(es, WLAN_EID_SUPP_RATES)) + 3
  }

  predicate HasTim(es: seq<Ie>) {
    var k := FirstIndex(es, WLAN_EID_TIM);
    k < |es| && es[k].data != []
  }

  /** Where the new element goes and how much of the old bytes it replaces. */
  ghost predicate Target(es: seq<Ie>, dst: nat, size: nat)
    requires AllFit(es)
  {
    if HasTim(es) then
      var k := FirstIndex(es, WLAN_EID_TIM);
      AllFit(es[..k]) && dst == FIXED_IE_LENGTH + |Enc(es[..k])| && size == 2 + |es[k].data|
    else dst == InsertOffset(es) && size == 0
  }

  /** An element decodes to the map. */
  ghost predicate TimFor(tim: Ie, bmp: seq<u8>) {
    tim.id == WLAN_EID_TIM && tim.Fits() && |tim.data| >= 4
    && forall aid: nat :: Decoded(tim.data, aid) <==> IsSet(bmp, aid)
  }

  /** The size of what the new element is written behind and in front of. */
  function Kept(es: seq<Ie>, ieLength: nat): int {
    if HasTim(es) then ieLength - Size(es, FirstIndex(es, WLAN_EID_TIM))
    else if InsertOffset(es) > ieLength then InsertOffset(es)
    else ieLength
  }

  /** `tim` is an element of the list, `off` bytes from its start. */
  ghost predicate TimAt(fs: seq<Ie>, tim: Ie, off: nat) {
    exists k :: 0 <= k < |fs| && fs[k] == tim && AllFit(fs[..k]) && |Enc(fs[..k])| == off
  }

  /** `off` bytes from its start the list has an element boundary: a walk over the lengths that
      a caller can make. */
  predicate Boundary(es: seq<Ie>, off: nat) {
    off == 0 || (es != [] && 2 + |es[0].data| <= off && Boundary(es[1..], off - 2 - |es[0].data|))
  }

  /** `update_BCNTIM`, for a buffer with room for the result.  The bytes around the place stay,
      and the beacon then is a list with the TIM element at the place if and only if the place is
      between two elements of the old list.  When the list ends before the place the remainder
      wraps, its backup cannot be allocated, and the element is written past the end. */
  method UpdateBcnTim(beacon: Beacon, bmp: seq<u8>, ghost es: seq<Ie>)
    returns (ghost tim: Ie, ghost dst: nat, ghost size: nat)
    requires beacon.Holds(es) && 1 <= |bmp| <= 250
    requires forall n1: nat, n2: nat :: Bounds(bmp, n1, n2) ==>
      Kept(es, beacon.ieLength) + 6 + n2 - n1 <= beacon.ies.Length
    modifies beacon, beacon.ies
    ensures TimFor(tim, bmp) && tim.data[0] == 0 && tim.data[1] == 1
    ensures Target(es, dst, size) && (HasTim(es) ==> dst + size <= old(beacon.ieLength))
    ensures beacon.ieLength == old(beacon.ieLength) - size + 2 + |tim.data| <= beacon.ies.Length
    ensures dst + size <= old(beacon.ieLength) ==>
      beacon.ies[..beacon.ieLength] ==
        old(beacon.ies[..dst]) + EncIe(tim) + old(beacon.ies[dst + size..beacon.ieLength])
    ensures dst > old(beacon.ieLength) ==>
      dst + 2 + |tim.data| <= beacon.ies.Length
      && beacon.ies[..dst + 2 + |tim.data|] == old(beacon.ies[..dst]) + EncIe(tim)
    ensures HasTim(es) ==> beacon.Holds(es[FirstIndex(es, WLAN_EID_TIM) := tim])
    ensures !HasTim(es) ==>
      forall j :: 0 <= j <= |es| && dst == FIXED_IE_LENGTH + |Enc(es[..j])| ==>
        beacon.Holds(es[..j] + ([tim] + es[j..]))
    ensures !HasTim(es) ==>
      (ShowsTim(beacon.ies[..], beacon.ieLength, tim, dst) <==> Boundary(es, dst - FIXED_IE_LENGTH))
  {
    hide Enc, Bounds, Decoded, IsSet, FirstIndex, ShowsTim, Boundary;
    ghost var b, e := beacon.ies[..], beacon.ieLength;
    var at, rem := FindTarget(beacon, es);
    dst, size := at, rem - at;
    var bytes, n1, n2 := SetTimIe(0, 1, bmp);
    tim := TimIe(0, 1, bmp, n1, n2);
    forall aid: nat ensures Decoded(tim.data, aid) <==> IsSet(bmp, aid) {
      DecodesExactly(0, 1, bmp, n1, n2, aid);
    }
    if rem <= beacon.ieLength {
      Splice(beacon.ies, at, bytes, rem, beacon.ieLength);
      beacon.ieLength := at + |bytes| + (beacon.ieLength - rem);
      TimInList(beacon.ies[..], beacon.ieLength, b, e, es, dst, size, tim);
    } else {
      Write(beacon.ies, at, bytes);
      beacon.ieLength := beacon.ieLength + |bytes|;
      TimPastEnd(beacon.ies[..], beacon.ieLength, e, es, dst, tim);
    }
  }

  /** Where the element goes and what is behind it. */
  method FindTarget(beacon: Beacon, ghost es: seq<Ie>) returns (at: nat, rem: nat)
    requires beacon.Holds(es)
    ensures at <= rem && Target(es, at, rem - at) && (HasTim(es) ==> rem <= beacon.ieLength)
  {
    hide Enc, FirstIndex;
    var p, ielen := GetIe(beacon.ies, FIXED_IE_LENGTH, WLAN_EID_TIM, beacon.ieLength - FIXED_IE_LENGTH, es);
    if p >= 0 && ielen > 0 {
      at, rem := p, p + ielen + 2;
      EncSplit(es, FirstIndex(es, WLAN_EID_TIM));
    } else {
      at := FIXED_IE_LENGTH;
      var q, len := GetIe(beacon.ies, FIXED_IE_LENGTH, WLAN_EID_SSID, beacon.ieLength - FIXED_IE_LENGTH, es);
      if q >= 0 { at := at + len + 2; }
      q, len := GetIe(beacon.ies, FIXED_IE_LENGTH, WLAN_EID_SUPP_RATES, beacon.ieLength - FIXED_IE_LENGTH, es);
      if q >= 0 { at := at + len + 2; }
      at := at + 3;
      rem := at;
    }
  }

  /** Reading the list off the spliced bytes. */
  lemma TimInList(c: seq<u8>, n: nat, b: seq<u8>, e: nat, es: seq<Ie>, dst: nat, size: nat, tim: Ie)
    requires AllFit(es) && FIXED_IE_LENGTH <= e <= |b| && b[FIXED_IE_LENGTH..e] == Enc(es) && tim.Fits()
    requires Target(es, dst, size) && dst + size <= e
    requires n <= |c| && c[..n] == b[..dst] + EncIe(tim) + b[dst + size..e]
    ensures HasTim(es) ==> ListIs(c, n, es[FirstIndex(es, WLAN_EID_TIM) := tim])
    ensures !HasTim(es) ==>
      forall j :: 0 <= j <= |es| && dst == FIXED_IE_LENGTH + |Enc(es[..j])| ==>
        ListIs(c, n, es[..j] + ([tim] + es[j..]))
    ensures !HasTim(es) ==>
      (ShowsTim(c, n, tim, dst) <==> Boundary(es, dst - FIXED_IE_LENGTH))
  {
    hide Enc, FirstIndex, TimAt, Boundary;
    if HasTim(es) {
      var k := FirstIndex(es, WLAN_EID_TIM);
      EncSplit(es, k);
      SpliceBytes(b, FIXED_IE_LENGTH, e, es, k, k + 1, tim);
      assert es[k := tim] == es[..k] + ([tim] + es[k + 1..]);
      HeadAndList(c, b, FIXED_IE_LENGTH, n, Enc(es[k := tim]));
    } else {
      forall j | 0 <= j <= |es| && dst == FIXED_IE_LENGTH + |Enc(es[..j])|
        ensures ListIs(c, n, es[..j] + ([tim] + es[j..]))
      {
        SpliceBytes(b, FIXED_IE_LENGTH, e, es, j, j, tim);
        HeadAndList(c, b, FIXED_IE_LENGTH, n, Enc(es[..j] + ([tim] + es[j..])));
      }
      SplicedList(c, n, b, e, es, dst, tim);
      SplicedShows(c, n, es, dst, tim);
    }
  }

  lemma SplicedShows(c: seq<u8>, n: nat, es: seq<Ie>, dst: nat, tim: Ie)
    requires AllFit(es) && tim.Fits() && FIXED_IE_LENGTH <= dst <= FIXED_IE_LENGTH + |Enc(es)|
    requires FIXED_IE_LENGTH <= n <= |c| && c[FIXED_IE_LENGTH..n] == Spliced(es, dst - FIXED_IE_LENGTH, tim)
    ensures ShowsTim(c, n, tim, dst) <==> Boundary(es, dst - FIXED_IE_LENGTH)
  {
    hide Enc, TimAt, Boundary, Spliced;
    var off := dst - FIXED_IE_LENGTH;
    SplicedIff(es, off, tim);
    if Boundary(es, off) {
      var fs :| AllFit(fs) && Enc(fs) == Spliced(es, off, tim) && TimAt(fs, tim, off);
      assert ListIs(c, n, fs);
    }
    if ShowsTim(c, n, tim, dst) {
      var fs :| ListIs(c, n, fs) && TimAt(fs, tim, off);
      assert Enc(fs) == Spliced(es, off, tim);
    }
  }

  /** The list area of the spliced beacon. */
  lemma SplicedList(c: seq<u8>, n: nat, b: seq<u8>, e: nat, es: seq<Ie>, dst: nat, tim: Ie)
    requires AllFit(es) && FIXED_IE_LENGTH <= dst <= e <= |b| && b[FIXED_IE_LENGTH..e] == Enc(es) && tim.Fits()
    requires n <= |c| && c[..n] == b[..dst] + EncIe(tim) + b[dst..e]
    ensures dst - FIXED_IE_LENGTH <= |Enc(es)|
    ensures FIXED_IE_LENGTH <= n && c[FIXED_IE_LENGTH..n] == Spliced(es, dst - FIXED_IE_LENGTH, tim)
  {
    hide Enc;
    var off := dst - FIXED_IE_LENGTH;
    SliceSlice(b, FIXED_IE_LENGTH, e, 0, off);
    SliceSlice(b, FIXED_IE_LENGTH, e, off, e - FIXED_IE_LENGTH);
    SliceJoin(b, 0, FIXED_IE_LENGTH, dst);
    Assoc(b[..FIXED_IE_LENGTH], b[FIXED_IE_LENGTH..dst], EncIe(tim));
    Assoc(b[..FIXED_IE_LENGTH], b[FIXED_IE_LENGTH..dst] + EncIe(tim), b[dst..e]);
    HeadAndList(c, b, FIXED_IE_LENGTH, n, Spliced(es, off, tim));
  }

  function Spliced(es: seq<Ie>, off: nat, tim: Ie): seq<u8>
    requires AllFit(es) && tim.Fits() && off <= |Enc(es)|
  {
    Enc(es)[..off] + EncIe(tim) + Enc(es)[off..]
  }

  /** An element written behind the end of the list is not in it. */
  lemma TimPastEnd(c: seq<u8>, n: nat, e: nat, es: seq<Ie>, dst: nat, tim: Ie)
    requires AllFit(es) && |Enc(es)| == e - FIXED_IE_LENGTH && FIXED_IE_LENGTH <= e < dst && tim.Fits()
    requires n == e + 2 + |tim.data| <= |c|
    ensures forall j :: 0 <= j <= |es| ==> AllFit(es[..j]) && dst > FIXED_IE_LENGTH + |Enc(es[..j])|
    ensures !Boundary(es, dst - FIXED_IE_LENGTH)
    ensures !ShowsTim(c, n, tim, dst)
  {
    hide Enc, Boundary;
    forall j | 0 <= j <= |es| ensures AllFit(es[..j]) && |Enc(es[..j])| <= |Enc(es)| {
      AtBoundary(Enc(es), es, j);
    }
    if Boundary(es, dst - FIXED_IE_LENGTH) {
      var j := BoundaryIndex(es, dst - FIXED_IE_LENGTH);
    }
    forall fs | ListIs(c, n, fs) ensures !TimAt(fs, tim, dst - FIXED_IE_LENGTH) {
      forall k | 0 <= k < |fs| && fs[k] == tim ensures AllFit(fs[..k]) && |Enc(fs[..k])| + 2 + |tim.data| <= |Enc(fs)| {
        AtBoundary(Enc(fs), fs, k);
      }
    }
  }

  // --- Between two elements, and inside one ---------------------------------------------------------

  lemma {:induction false} BoundaryIndex(es: seq<Ie>, off: nat) returns (j: nat)
    requires AllFit(es) && Boundary(es, off)
    ensures j <= |es| && AllFit(es[..j]) && |Enc(es[..j])| == off
  {
    if off == 0 {
      j := 0;
      EncEmpty(es);
    } else {
      var i := BoundaryIndex(es[1..], off - 2 - |es[0].data|);
      j := i + 1;
      assert es[..j] == [es[0]] + es[1..][..i];
      EncCons(es[0], es[1..][..i]);
    }
  }

  lemma {:induction false} PrefixIsBoundary(es: seq<Ie>, j: nat)
    requires AllFit(es) && j <= |es|
    ensures AllFit(es[..j]) && Boundary(es, |Enc(es[..j])|)
  {
    if j == 0 {
      EncEmpty(es);
    } else {
      PrefixIsBoundary(es[1..], j - 1);
      assert es[..j] == [es[0]] + es[1..][..j - 1];
      EncCons(es[0], es[1..][..j - 1]);
    }
  }

  /** Bytes that start with those of `a` are parsed to a list that starts with `a`. */
  lemma {:induction false} ParsePrefix(a: seq<Ie>, es: seq<Ie>)
    requires AllFit(a) && AllFit(es) && |Enc(a)| <= |Enc(es)| && Enc(es)[..|Enc(a)|] == Enc(a)
    ensures |a| <= |es| && es[..|a|] == a
  {
    if a != [] {
      var s, t := Enc(es), Enc(a);
      var n := 2 + |a[0].data|;
      assert t[0] == a[0].id && t[1] == |a[0].data| && t[0] == s[0] && t[1] == s[1];
      assert es != [] && s[0] == es[0].id && s[1] == |es[0].data|;
      assert a[0].data == t[2..n] == s[2..n] == es[0].data;
      assert Enc(a[1..]) == t[n..] && Enc(es[1..]) == s[n..];
      assert s[n..][..|t| - n] == s[..|t|][n..];
      ParsePrefix(a[1..], es[1..]);
      assert es == [es[0]] + es[1..] && a == [a[0]] + a[1..];
    }
  }

  /** Bytes spliced into a list are an element of the resulting list, at their place, if and only
      if the place was an element boundary. */
  lemma SplicedIff(es: seq<Ie>, off: nat, tim: Ie)
    requires AllFit(es) && tim.Fits() && off <= |Enc(es)|
    ensures (exists fs :: AllFit(fs) && Enc(fs) == Spliced(es, off, tim) && TimAt(fs, tim, off)) <==> Boundary(es, off)
  {
    hide Enc, Boundary;
    if Boundary(es, off) {
      var j := BoundaryIndex(es, off);
      InsertedList(es, j, tim);
    }
    forall fs | AllFit(fs) && Enc(fs) == Spliced(es, off, tim) && TimAt(fs, tim, off) ensures Boundary(es, off) {
      var k :| 0 <= k < |fs| && fs[k] == tim && AllFit(fs[..k]) && |Enc(fs[..k])| == off;
      EncSplit(fs, k);
      assert Enc(es)[..off] == Enc(fs)[..off] == Enc(fs[..k]);
      ParsePrefix(fs[..k], es);
      PrefixIsBoundary(es, k);
    }
  }

  lemma InsertedList(es: seq<Ie>, j: nat, tim: Ie)
    requires AllFit(es) && tim.Fits() && j <= |es|
    ensures AllFit(es[..j]) && |Enc(es[..j])| <= |Enc(es)|
    ensures var fs := es[..j] + ([tim] + es[j..]);
      AllFit(fs) && Enc(fs) == Spliced(es, |Enc(es[..j])|, tim) && TimAt(fs, tim, |Enc(es[..j])|)
  {
    hide Enc;
    var fs := es[..j] + ([tim] + es[j..]);
    assert es == es[..j] + es[j..];
    EncAppend(es[..j], es[j..]);
    EncCons(tim, es[j..]);
    EncAppend(es[..j], [tim] + es[j..]);
    Assoc(Enc(es[..j]), EncIe(tim), Enc(es[j..]));
    assert fs[..j] == es[..j] && fs[j] == tim;
    assert Enc(es)[..|Enc(es[..j])|] == Enc(es[..j]) && Enc(es)[|Enc(es[..j])|..] == Enc(es[j..]);
  }

  /** The bytes are a list with the TIM element at the place. */
  ghost predicate ShowsTim(c: seq<u8>, n: nat, tim: Ie, dst: nat) {
    dst >= FIXED_IE_LENGTH && exists fs :: ListIs(c, n, fs) && TimAt(fs, tim, dst - FIXED_IE_LENGTH)
  }

  ghost predicate ListIs(c: seq<u8>, n: nat, es: seq<Ie>) {
    FIXED_IE_LENGTH <= n <= |c| && AllFit(es) && c[FIXED_IE_LENGTH..n] == Enc(es)
  }

  /** Behind leading SSID, rates and DS elements, the first two of which may be missing, the
      place is between two elements. */
  lemma InsertsBehindDs(ssid: seq<Ie>, rates: seq<Ie>, ds: Ie, rest: seq<Ie>)
    requires AllFit(ssid) && AllFit(rates) && |ssid| <= 1 && |rates| <= 1
    requires ds.id == WLAN_EID_DS_PARAMS && |ds.data| == 1
    requires if ssid == [] then Without(rest, WLAN_EID_SSID) else ssid[0].id == WLAN_EID_SSID
    requires if rates == [] then Without(rest, WLAN_EID_SUPP_RATES) else rates[0].id == WLAN_EID_SUPP_RATES
    ensures var head := ssid + rates + [ds];
      && AllFit(head)
      && InsertOffset(head + rest) == FIXED_IE_LENGTH + |Enc(head)|
  {
    hide Enc, FirstIndex, Size;
    EncAppend(ssid, rates);
    EncAppend(ssid + rates, [ds]);
    EncOneIe(ds);
    OneSize([], ssid, rates + [ds] + rest, WLAN_EID_SSID);
    OneSize(ssid, rates, [ds] + rest, WLAN_EID_SUPP_RATES);
    assert ssid + rates + [ds] + rest == [] + ssid + (rates + [ds] + rest) == ssid + rates + ([ds] + rest);
  }

  ghost predicate Without(es: seq<Ie>, id: u8) {
    forall e :: e in es ==> e.id != id
  }

  lemma OneSize(pre: seq<Ie>, one: seq<Ie>, post: seq<Ie>, id: u8)
    requires AllFit(one) && |one| <= 1 && Without(pre, id)
    requires if one == [] then Without(post, id) else one[0].id == id
    ensures Size(pre + one + post, FirstIndex(pre + one + post, id)) == |Enc(one)|
  {
    hide Enc, FirstIndex;
    var es := pre + one + post;
    if one == [] {
      EncEmpty([]);
      assert one[..0] == one;
      assert forall e :: e in es ==> e in pre || e in post;
    } else {
      EncOneIe(one[0]);
      assert one == [one[0]] && es[|pre|] == one[0];
      FirstIs(es, |pre|, id);
    }
  }

  lemma EncCons(e: Ie, es: seq<Ie>)
    requires e.Fits() && AllFit(es)
    ensures AllFit([e] + es) && Enc([e] + es) == EncIe(e) + Enc(es)
  {
    assert ([e] + es)[1..] == es;
  }

  lemma {:induction false} BoundarySkips(pre: seq<Ie>, post: seq<Ie>, off: nat)
    requires AllFit(pre)
    ensures Boundary(pre + post, |Enc(pre)| + off) <==> Boundary(post, off)
  {
    if pre == [] {
      assert pre + post == post;
    } else {
      assert (pre + post)[1..] == pre[1..] + post && pre == [pre[0]] + pre[1..];
      EncCons(pre[0], pre[1..]);
      BoundarySkips(pre[1..], post, off);
    }
  }

  /** Behind leading SSID and rates elements, either of which may be missing, the place is between
      two elements if and only if the next element has one byte of data, as a DS element does. */
  lemma BoundaryIffOneByte(ssid: seq<Ie>, rates: seq<Ie>, rest: seq<Ie>)
    requires AllFit(ssid) && AllFit(rates) && |ssid| <= 1 && |rates| <= 1
    requires if ssid == [] then Without(rest, WLAN_EID_SSID) else ssid[0].id == WLAN_EID_SSID
    requires if rates == [] then Without(rest, WLAN_EID_SUPP_RATES) else rates[0].id == WLAN_EID_SUPP_RATES
    ensures var es := ssid + rates + rest;
      Boundary(es, InsertOffset(es) - FIXED_IE_LENGTH) <==> rest != [] && |rest[0].data| == 1
  {
    hide Enc, FirstIndex, Size;
    EncAppend(ssid, rates);
    OneSize([], ssid, rates + rest, WLAN_EID_SSID);
    OneSize(ssid, rates, rest, WLAN_EID_SUPP_RATES);
    assert ssid + rates + rest == [] + ssid + (rates + rest);
    BoundarySkips(ssid + rates, rest, 3);
    if rest != [] {
      assert Boundary(rest[1..], 1) == false;
    }
  }

  const SSID_IE: Ie := Ie(WLAN_EID_SSID, [0x68, 0x6F, 0x6D, 0x65])
  const RATES_IE: Ie := Ie(WLAN_EID_SUPP_RATES, [0x8C, 0x12, 0x98, 0x24, 0xB0, 0x48, 0x60, 0x6C])
  const COUNTRY_IE: Ie := Ie(7, [0x55, 0x53, 0x20, 36, 4, 23])

  /** A 5 GHz beacon, with a network name, eight rates and a country element but no DS element:
      the TIM element is put inside the country element.  No list then has it where it was put,
      and with an empty map the bytes are no element list at all. */
  lemma InsertTearsElement(tim: Ie, fs: seq<Ie>)
    requires tim.Fits() && AllFit(fs)
    ensures var es := [SSID_IE, RATES_IE, COUNTRY_IE];
      var off := InsertOffset(es) - FIXED_IE_LENGTH;
      && AllFit(es) && !HasTim(es) && off <= |Enc(es)| && Bounds([0], 0, 0)
      && (Enc(fs) == Spliced(es, off, tim) ==> !TimAt(fs, tim, off))
      && Enc(fs) != Spliced(es, off, TimIe(0, 1, [0], 0, 0))
  {
    hide Enc, FirstIndex, Boundary, TimAt;
    var es := [SSID_IE, RATES_IE, COUNTRY_IE];
    assert es == [SSID_IE] + [RATES_IE] + [COUNTRY_IE];
    BoundaryIffOneByte([SSID_IE], [RATES_IE], [COUNTRY_IE]);
    FirstIs(es, 0, WLAN_EID_SSID);
    FirstIs(es, 1, WLAN_EID_SUPP_RATES);
    EncThree(SSID_IE, RATES_IE, COUNTRY_IE);
    SplicedIff(es, 19, tim);
    TornNoList(fs);
  }

  lemma EncThree(x: Ie, y: Ie, z: Ie)
    requires x.Fits() && y.Fits() && z.Fits()
    ensures AllFit([x, y, z]) && Enc([x, y, z]) == EncIe(x) + (EncIe(y) + EncIe(z))
  {
    hide Enc;
    EncOneIe(z);
    EncCons(y, [z]);
    EncCons(x, [y] + [z]);
    assert [x, y, z] == [x] + ([y] + [z]);
  }

  /** The torn country element takes six bytes, and what follows it claims more than is left. */
  lemma TornNoList(fs: seq<Ie>)
    requires AllFit(fs)
    ensures var es := [SSID_IE, RATES_IE, COUNTRY_IE];
      AllFit(es) && 19 <= |Enc(es)| && Enc(fs) != Spliced(es, 19, TimIe(0, 1, [0], 0, 0))
  {
    hide Enc;
    var es := [SSID_IE, RATES_IE, COUNTRY_IE];
    var torn := Ie(7, [0x55, 5, 4, 0, 1, 0]);
    var head := [SSID_IE, RATES_IE, torn];
    EncThree(SSID_IE, RATES_IE, COUNTRY_IE);
    EncThree(SSID_IE, RATES_IE, torn);
    var s := Spliced(es, 19, TimIe(0, 1, [0], 0, 0));
    assert EncIe(TimIe(0, 1, [0], 0, 0)) == [5, 4, 0, 1, 0, 0];
    assert s[..24] == Enc(head) && s[24..] == [0, 0x53, 0x20, 36, 4, 23];
    if Enc(fs) == s {
      ParsePrefix(head, fs);
      assert fs == head + fs[3..];
      EncAppend(head, fs[3..]);
      assert Enc(fs[3..]) == s[24..];
      ClaimsTooMuch(fs[3..], s[24..]);
    }
  }

  lemma ClaimsTooMuch(fs: seq<Ie>, s: seq<u8>)
    requires AllFit(fs) && |s| >= 2 && s[1] > |s|
    ensures Enc(fs) != s
  {
  }
}
