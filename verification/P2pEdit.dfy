/**
  Deleting one attribute from every P2P element of a BSS's element list, by moves within the
  list's own buffer: attributes inside elements, elements inside the buffer.
 */
module P2pEdit {
  import opened IeList
  import opened Sequences
  import opened IeEdit

  const WLAN_EID_VENDOR_SPECIFIC: u8 := 221
  const P2P_OUI: seq<u8> := [0x50, 0x6F, 0x9A, 0x09]
  const MAX_IE_SZ := 768

  /** A P2P attribute: an id, a 16-bit little-endian length, and that many bytes. */
  datatype Attr = Attr(id: u8, body: seq<u8>)

  function Le16(lo: u8, hi: u8): nat {
    var h: int := hi;
    lo + 256 * h
  }

  function EncAttr(a: Attr): seq<u8>
    requires |a.body| < 0x10000
  {
    [a.id, |a.body| % 256, |a.body| / 256] + a.body
  }

  ghost predicate AttrsFit(as_: seq<Attr>) {
    forall a :: a in as_ ==> |a.body| < 0x10000
  }

  function EncAttrs(as_: seq<Attr>): seq<u8>
    requires AttrsFit(as_)
  {
    Join(as_, EncAttr)
  }

  /** An element of the list: any element that is not P2P, or a P2P element by its attributes. */
  datatype Elem = Other(ie: Ie) | P2p(attrs: seq<Attr>)

  predicate IsP2p(e: Ie) { e.id == WLAN_EID_VENDOR_SPECIFIC && P2P_OUI <= e.data }

  /** Well formed: everything fits its length byte, vendor elements carry at least the four
      bytes that identify them, and `Other` is not a P2P element in disguise. */
  ghost predicate ElemOk(x: Elem) {
    match x
    case Other(e) => e.Fits() && !IsP2p(e) && (e.id == WLAN_EID_VENDOR_SPECIFIC ==> |e.data| >= 4)
    case P2p(attrs) => AttrsFit(attrs) && 4 + |EncAttrs(attrs)| < 256
  }

  ghost predicate ElemsOk(xs: seq<Elem>) {
    forall x :: x in xs ==> ElemOk(x)
  }

  function EncP2p(attrs: seq<Attr>): seq<u8>
    requires AttrsFit(attrs) && 4 + |EncAttrs(attrs)| < 256
  {
    [WLAN_EID_VENDOR_SPECIFIC, 4 + |EncAttrs(attrs)|] + P2P_OUI + EncAttrs(attrs)
  }

  function EncElem(x: Elem): seq<u8>
    requires ElemOk(x)
  {
    match x
    case Other(e) => EncIe(e)
    case P2p(attrs) => EncP2p(attrs)
  }

  function EncElems(xs: seq<Elem>): seq<u8>
    requires ElemsOk(xs)
  {
    Join(xs, EncElem)
  }

  // --- The specification: filter the attribute out of every P2P element -------------------

  function DropAttr(as_: seq<Attr>, id: u8): seq<Attr> {
    if as_ == [] then []
    else (if as_[0].id == id then [] else [as_[0]]) + DropAttr(as_[1..], id)
  }

  function DropElem(x: Elem, id: u8): Elem {
    match x
    case Other(_) => x
    case P2p(attrs) => P2p(DropAttr(attrs, id))
  }

  function DropAll(xs: seq<Elem>, id: u8): seq<Elem> {
    if xs == [] then [] else [DropElem(xs[0], id)] + DropAll(xs[1..], id)
  }

  lemma EncAttrsAppend(a: seq<Attr>, b: seq<Attr>)
    requires AttrsFit(a) && AttrsFit(b)
    ensures AttrsFit(a + b) && EncAttrs(a + b) == EncAttrs(a) + EncAttrs(b)
  {
    JoinAppend(a, b, EncAttr);
  }

  /** Dropping attributes keeps the others, in order, ... */
  lemma {:induction false} DropAttrMembers(as_: seq<Attr>, id: u8)
    ensures forall a :: a in DropAttr(as_, id) <==> a in as_ && a.id != id
  {
    if as_ != [] {
      DropAttrMembers(as_[1..], id);
    }
  }

  /** ... and does not lengthen the encoding. */
  lemma {:induction false} DropAttrFacts(as_: seq<Attr>, id: u8)
    requires AttrsFit(as_)
    ensures AttrsFit(DropAttr(as_, id)) && |EncAttrs(DropAttr(as_, id))| <= |EncAttrs(as_)|
  {
    DropAttrMembers(as_, id);
    if as_ != [] {
      DropAttrFacts(as_[1..], id);
      if as_[0].id != id {
        assert DropAttr(as_, id)[1..] == DropAttr(as_[1..], id);
      } else {
        assert DropAttr(as_, id) == DropAttr(as_[1..], id);
      }
    }
  }

  lemma {:induction false} DropAttrAppend(a: seq<Attr>, b: seq<Attr>, id: u8)
    ensures DropAttr(a + b, id) == DropAttr(a, id) + DropAttr(b, id)
  {
    if a == [] {
      assert a + b == b;
    } else {
      assert (a + b)[1..] == a[1..] + b;
      DropAttrAppend(a[1..], b, id);
    }
  }

  lemma {:induction false} DropAttrNone(as_: seq<Attr>, id: u8)
    requires forall a :: a in as_ ==> a.id != id
    ensures DropAttr(as_, id) == as_
  {
    if as_ != [] { DropAttrNone(as_[1..], id); }
  }

  lemma DropElemOk(x: Elem, id: u8)
    requires ElemOk(x)
    ensures ElemOk(DropElem(x, id)) && |EncElem(DropElem(x, id))| <= |EncElem(x)|
  {
    if x.P2p? { DropAttrFacts(x.attrs, id); }
  }

  lemma {:induction false} DropAllOk(xs: seq<Elem>, id: u8)
    requires ElemsOk(xs)
    ensures ElemsOk(DropAll(xs, id)) && |EncElems(DropAll(xs, id))| <= |EncElems(xs)|
  {
    if xs != [] {
      DropElemOk(xs[0], id);
      DropAllOk(xs[1..], id);
      assert DropAll(xs, id)[1..] == DropAll(xs[1..], id);
    }
  }

  lemma EncElemsAppend(a: seq<Elem>, b: seq<Elem>)
    requires ElemsOk(a) && ElemsOk(b)
    ensures ElemsOk(a + b) && EncElems(a + b) == EncElems(a) + EncElems(b)
  {
    JoinAppend(a, b, EncElem);
  }

  // --- Searching ---------------------------------------------------------------------------

  function FirstAttr(as_: seq<Attr>, id: u8): (k: nat)
    ensures k <= |as_| && (k < |as_| ==> as_[k].id == id) && forall j :: 0 <= j < k ==> as_[j].id != id
  {
    First(as_, (a: Attr) => a.id == id)
  }

  function FirstP2p(xs: seq<Elem>): (k: nat)
    ensures k <= |xs| && (k < |xs| ==> xs[k].P2p?) && forall j :: 0 <= j < k ==> xs[j].Other?
  {
    First(xs, (x: Elem) => x.P2p?)
  }

  /** What a reader sees at the head of an attribute list that occupies `b[p..e]`. */
  lemma AttrAt(b: seq<u8>, p: nat, e: nat, as_: seq<Attr>)
    requires AttrsFit(as_) && p <= e <= |b| && b[p..e] == EncAttrs(as_)
    ensures as_ == [] <==> p == e
    ensures as_ != [] ==>
      var n := 3 + |as_[0].body|;
      && p + n <= e && b[p] == as_[0].id && Le16(b[p + 1], b[p + 2]) == |as_[0].body|
      && AttrsFit(as_[1..]) && b[p + n..e] == EncAttrs(as_[1..])
  {
    if as_ != [] {
      var s := b[p..e];
      var n := 3 + |as_[0].body|;
      assert s == EncAttr(as_[0]) + EncAttrs(as_[1..]);
      assert b[p] == s[0] && b[p + 1] == s[1] && b[p + 2] == s[2];
      SliceSlice(b, p, e, n, e - p);
    }
  }

  /** The test of the loop below on the head of the attributes that are left: whether it has the
      id, and its size. */
  method TestAttr(buf: array<u8>, attr: nat, end: nat, id: u8, ghost rest: seq<Attr>) returns (hit: bool, attrLen: nat)
    requires AttrsFit(rest) && rest != [] && |EncAttrs(rest)| < 256
    requires attr <= end <= buf.Length && buf[attr..end] == EncAttrs(rest)
    ensures attrLen == 3 + |rest[0].body| && (hit <==> rest[0].id == id) && attr + attrLen <= end
    ensures AttrsFit(rest[1..]) && buf[attr + attrLen..end] == EncAttrs(rest[1..])
    ensures if rest[1..] == [] then attr + attrLen == end else attr + attrLen + 3 <= end
  {
    hide EncAttrs;
    AttrAt(buf[..], attr, end, rest);
    assert buf[attr..end] == buf[..][attr..end];
    var attrDataLen := Le16(buf[attr + 1], buf[attr + 2]);
    attrLen := (attrDataLen + 3) % 0x10000;
    hit := buf[attr] == id;
    AttrAt(buf[..], attr + attrLen, end, rest[1..]);
  }

  /** `rtw_get_p2p_attr` without its copy-out option: position of the first attribute with this
      id, or -1, and its size. */
  method GetP2pAttr(buf: array<u8>, ie: nat, ielen: nat, id: u8, ghost attrs: seq<Attr>) returns (p: int, alen: nat)
    requires AttrsFit(attrs) && 4 + |EncAttrs(attrs)| < 256
    requires ie + ielen <= buf.Length && buf[ie..ie + ielen] == EncP2p(attrs)
    ensures var k := FirstAttr(attrs, id);
      if k < |attrs| then AttrsFit(attrs[..k]) && p == ie + 6 + |EncAttrs(attrs[..k])| && alen == 3 + |attrs[k].body|
      else p == -1 && alen == 0
  {
    hide EncAttrs, FirstAttr, EncP2p;
    p, alen := -1, 0;
    P2pHead(buf[..], ie, ielen, attrs);
    AttrAt(buf[..], ie + 6, ie + ielen, attrs);
    if ielen <= 6 || buf[ie] != WLAN_EID_VENDOR_SPECIFIC || buf[ie + 2..ie + 6] != P2P_OUI {
      return;
    }
    var attr := ie + 6;
    ghost var pre: seq<Attr>, rest := [], attrs;
    NoAttrs();
    while attr - ie + 3 <= ielen && p < 0
      invariant attrs == pre + rest && AttrsFit(pre) && AttrsFit(rest) && |EncAttrs(rest)| < 256
      invariant attr == ie + 6 + |EncAttrs(pre)| <= ie + ielen && buf[attr..ie + ielen] == EncAttrs(rest)
      invariant if rest == [] then attr == ie + ielen else attr + 3 <= ie + ielen
      invariant forall a :: a in pre ==> a.id != id
      invariant if p < 0 then p == -1 && alen == 0
                else rest != [] && rest[0].id == id && p == attr && alen == 3 + |rest[0].body|
      decreases |rest|, p < 0
    {
      var hit, attrLen := TestAttr(buf, attr, ie + ielen, id, rest);
      if hit {
        p, alen := attr, attrLen;
      } else {
        AttrsAdvance(pre, rest);
        attr := attr + attrLen;
        pre, rest := pre + [rest[0]], rest[1..];
      }
    }
    FirstAttrIs(attrs, pre, rest, id);
  }

  lemma NoAttrs()
    ensures EncAttrs([]) == []
  {
  }

  /** The fixed part of a P2P element in a buffer. */
  lemma P2pHead(b: seq<u8>, ie: nat, ielen: nat, attrs: seq<Attr>)
    requires AttrsFit(attrs) && 4 + |EncAttrs(attrs)| < 256
    requires ie + ielen <= |b| && b[ie..ie + ielen] == EncP2p(attrs)
    ensures ielen == 6 + |EncAttrs(attrs)|
    ensures b[ie] == WLAN_EID_VENDOR_SPECIFIC && b[ie + 1] == ielen - 2
    ensures b[ie + 2..ie + 6] == P2P_OUI
    ensures b[ie + 6..ie + ielen] == EncAttrs(attrs)
  {
    hide EncAttrs;
    var s := b[ie..ie + ielen];
    assert s[0] == b[ie] && s[1] == b[ie + 1];
    assert s[2..6] == P2P_OUI && s[6..] == EncAttrs(attrs);
    SliceSlice(b, ie, ie + ielen, 2, 6);
    SliceSlice(b, ie, ie + ielen, 6, ielen);
  }

  lemma AttrsAdvance(pre: seq<Attr>, rest: seq<Attr>)
    requires AttrsFit(pre) && AttrsFit(rest) && rest != []
    ensures pre + rest == (pre + [rest[0]]) + rest[1..]
    ensures AttrsFit(pre + [rest[0]]) && |EncAttrs(pre + [rest[0]])| == |EncAttrs(pre)| + 3 + |rest[0].body|
  {
    EncAttrsAppend(pre, [rest[0]]);
    JoinOne(rest[0], EncAttr);
  }

  lemma FirstAttrIs(attrs: seq<Attr>, pre: seq<Attr>, rest: seq<Attr>, id: u8)
    requires attrs == pre + rest && forall a :: a in pre ==> a.id != id
    requires rest != [] ==> rest[0].id == id
    ensures FirstAttr(attrs, id) == |pre| && attrs[..|pre|] == pre
    ensures rest != [] ==> attrs[|pre|] == rest[0]
  {
    assert forall j :: 0 <= j < |pre| ==> attrs[j] == pre[j] && pre[j].id != id;
    assert rest != [] ==> attrs[|pre|] == rest[0];
  }

  // --- Deleting from one element -------------------------------------------------------------

  ghost predicate Zero(s: seq<u8>) { forall i :: 0 <= i < |s| ==> s[i] == 0 }

  /** The list without attribute `k`. */
  function CutAttrs(as_: seq<Attr>, k: nat): seq<Attr>
    requires k < |as_|
  {
    as_[..k] + as_[k + 1..]
  }

  lemma CutAttrsFacts(as_: seq<Attr>, k: nat, id: u8)
    requires AttrsFit(as_) && k < |as_| && as_[k].id == id
    ensures AttrsFit(as_[..k]) && AttrsFit(as_[k + 1..]) && AttrsFit(CutAttrs(as_, k))
    ensures EncAttrs(as_) == EncAttrs(as_[..k]) + (EncAttr(as_[k]) + EncAttrs(as_[k + 1..]))
    ensures EncAttrs(CutAttrs(as_, k)) == EncAttrs(as_[..k]) + EncAttrs(as_[k + 1..])
    ensures |EncAttrs(as_)| == |EncAttrs(CutAttrs(as_, k))| + 3 + |as_[k].body|
    ensures DropAttr(CutAttrs(as_, k), id) == DropAttr(as_, id)
  {
    var one, tail := [as_[k]], as_[k + 1..];
    assert as_ == as_[..k] + (one + tail) && (one + tail)[1..] == tail;
    EncAttrsAppend(as_[..k], one + tail);
    EncAttrsAppend(as_[..k], tail);
    DropAttrAppend(as_[..k], one + tail, id);
    DropAttrAppend(as_[..k], tail, id);
  }

  /** `b` with the bytes from `src` to `e` moved down to `dst` and the vacated bytes zeroed. */
  function Gap(b: seq<u8>, dst: nat, src: nat, e: nat): (c: seq<u8>)
    requires dst <= src <= e <= |b|
    ensures |c| == |b|
  {
    b[..dst] + b[src..e] + seq(src - dst, _ => 0) + b[e..]
  }

  lemma GapFacts(b: seq<u8>, dst: nat, src: nat, e: nat)
    requires dst <= src <= e <= |b|
    ensures var c := Gap(b, dst, src, e);
      && c[..dst] == b[..dst] && c[dst..dst + (e - src)] == b[src..e]
      && Zero(c[dst + (e - src)..e]) && c[e..] == b[e..]
  {
  }

  lemma GapBytes(b: seq<u8>, b1: seq<u8>, dst: nat, src: nat, e: nat)
    requires dst <= src <= e <= |b|
    requires b1 == b[..dst] + b[src..e] + b[dst + (e - src)..]
    ensures b1[..dst + (e - src)] + seq(src - dst, _ => 0) + b1[e..] == Gap(b, dst, src, e)
  {
    assert b1[..dst + (e - src)] == b[..dst] + b[src..e];
    assert b1[e..] == b[e..];
  }

  method CloseGap(a: array<u8>, dst: nat, src: nat, e: nat)
    requires dst <= src <= e <= a.Length
    modifies a
    ensures a[..] == Gap(old(a[..]), dst, src, e)
  {
    hide Gap;
    ghost var b := a[..];
    var remainLen := e - src;
    Memmove(a, dst, src, remainLen);
    ghost var b1 := a[..];
    Memset(a, dst + remainLen, 0, src - dst);
    GapBytes(b, b1, dst, src, e);
  }

  /** The bytes after one deletion: everything behind the attribute moves down, the vacated
      end of the element is zero, and the length byte says so. */
  lemma CutAttrBytes(b: seq<u8>, c: seq<u8>, ie: nat, ielen: nat, as_: seq<Attr>, k: nat, id: u8)
    requires AttrsFit(as_) && 4 + |EncAttrs(as_)| < 256 && k < |as_| && as_[k].id == id
    requires ie + ielen <= |b| == |c| && b[ie..ie + ielen] == EncP2p(as_)
    requires AttrsFit(as_[..k])
    requires var p, n := ie + 6 + |EncAttrs(as_[..k])|, 3 + |as_[k].body|;
      && p + n <= ie + ielen && n <= ielen - 2 < 256
      && c[ie] == b[ie] && c[ie + 1] == ielen - 2 - n && c[ie + 2..p] == b[ie + 2..p]
      && c[p..ie + ielen - n] == b[p + n..ie + ielen]
    ensures var n := 3 + |as_[k].body|;
      && AttrsFit(CutAttrs(as_, k)) && 4 + |EncAttrs(CutAttrs(as_, k))| < 256
      && c[ie..ie + ielen - n] == EncP2p(CutAttrs(as_, k))
  {
    hide EncAttrs, DropAttr;
    CutAttrsFacts(as_, k, id);
    P2pHead(b, ie, ielen, as_);
    var q := |EncAttrs(as_[..k])|;
    var n := 3 + |as_[k].body|;
    var s := EncAttrs(as_);
    assert s[..q] == EncAttrs(as_[..k]) && s[q + n..] == EncAttrs(as_[k + 1..]);
    SliceSlice(b, ie + 6, ie + ielen, 0, q);
    SliceSlice(b, ie + 6, ie + ielen, q + n, ielen - 6);
    Assembled(b, c, ie, q, ie + ielen - n, P2P_OUI, EncAttrs(as_[..k]), EncAttrs(as_[k + 1..]));
  }

  /** Putting an element back together from its length byte, its fixed part and two runs. */
  lemma Assembled(b: seq<u8>, c: seq<u8>, ie: nat, q: nat, e: nat, oui: seq<u8>, x: seq<u8>, y: seq<u8>)
    requires ie + 6 + q <= e <= |c| && ie + 6 + q <= |b| && |oui| == 4 && |x| == q
    requires c[ie + 2..ie + 6 + q] == b[ie + 2..ie + 6 + q]
    requires b[ie + 2..ie + 6] == oui && b[ie + 6..ie + 6 + q] == x && c[ie + 6 + q..e] == y
    ensures c[ie..e] == [c[ie], c[ie + 1]] + oui + (x + y)
  {
    SliceJoin(b, ie + 2, ie + 6, ie + 6 + q);
    SliceJoin(c, ie + 2, ie + 6 + q, e);
    SliceJoin(c, ie, ie + 2, e);
    Assoc(oui, x, y);
    assert c[ie..ie + 2] == [c[ie], c[ie + 1]];
  }

  /** One round of `rtw_del_p2p_attr`. */
  method CutAttr(a: array<u8>, ie: nat, ielen: nat, target: nat, alen: nat, ghost as_: seq<Attr>, ghost k: nat,
      ghost id: u8)
    requires AttrsFit(as_) && 4 + |EncAttrs(as_)| < 256 && k < |as_| && as_[k].id == id
    requires ie + ielen <= a.Length && a[ie..ie + ielen] == EncP2p(as_)
    requires AttrsFit(as_[..k]) && target == ie + 6 + |EncAttrs(as_[..k])| && alen == 3 + |as_[k].body|
    modifies a
    ensures alen <= ielen
    ensures a[..ie] == old(a[..ie]) && a[ie + ielen..] == old(a[ie + ielen..])
    ensures AttrsFit(CutAttrs(as_, k)) && 4 + |EncAttrs(CutAttrs(as_, k))| < 256
    ensures a[ie..ie + ielen - alen] == EncP2p(CutAttrs(as_, k))
    ensures Zero(a[ie + ielen - alen..ie + ielen])
  {
    hide EncAttrs, EncP2p, AttrsFit, Zero, Gap;
    ghost var b := a[..];
    ghost var c := CutOnce(b, ie, ielen, target, alen, as_, k, id);
    CloseGap(a, target, target + alen, ie + ielen);
    a[ie + 1] := (a[ie + 1] - alen) % 256;
    assert a[..] == c;
  }

  /** The bytes after that round. */
  lemma CutOnce(b: seq<u8>, ie: nat, ielen: nat, target: nat, alen: nat, as_: seq<Attr>, k: nat, id: u8)
    returns (c: seq<u8>)
    requires AttrsFit(as_) && 4 + |EncAttrs(as_)| < 256 && k < |as_| && as_[k].id == id
    requires ie + ielen <= |b| && b[ie..ie + ielen] == EncP2p(as_)
    requires AttrsFit(as_[..k]) && target == ie + 6 + |EncAttrs(as_[..k])| && alen == 3 + |as_[k].body|
    ensures |c| == |b| && alen <= ielen && ie + 1 < target && target + alen <= ie + ielen
    ensures var g := Gap(b, target, target + alen, ie + ielen);
      g[ie + 1] == ielen - 2 && 0 <= ielen - 2 - alen < 256 && c == g[ie + 1 := ielen - 2 - alen]
    ensures c[..ie] == b[..ie] && c[ie + ielen..] == b[ie + ielen..]
    ensures AttrsFit(CutAttrs(as_, k)) && 4 + |EncAttrs(CutAttrs(as_, k))| < 256
    ensures c[ie..ie + ielen - alen] == EncP2p(CutAttrs(as_, k))
    ensures Zero(c[ie + ielen - alen..ie + ielen])
  {
    hide EncAttrs, EncP2p, DropAttr, Zero, Gap;
    CutAttrsFacts(as_, k, id);
    P2pHead(b, ie, ielen, as_);
    var g := Gap(b, target, target + alen, ie + ielen);
    GapFacts(b, target, target + alen, ie + ielen);
    Relabelled(b, g, ie, target, ie + ielen - alen, ie + ielen, ielen - 2 - alen);
    c := g[ie + 1 := ielen - 2 - alen];
    CutAttrBytes(b, c, ie, ielen, as_, k, id);
  }

  /** Setting the length byte of the element disturbs nothing else. */
  lemma Relabelled(b: seq<u8>, c0: seq<u8>, ie: nat, p: nat, q: nat, e: nat, v: u8)
    requires ie + 2 <= p <= q <= e <= |b| == |c0| && c0[..p] == b[..p]
    ensures var c := c0[ie + 1 := v];
      && c[..ie] == b[..ie] && c[ie] == b[ie] && c[ie + 1] == v && c[ie + 2..p] == b[ie + 2..p]
      && c[p..q] == c0[p..q] && c[q..e] == c0[q..e] && c[e..] == c0[e..] && c0[ie + 1] == b[ie + 1]
  {
    assert c0[..p][ie] == b[..p][ie] && c0[..p][ie + 1] == b[..p][ie + 1];
    assert c0[..ie] == c0[..p][..ie] && b[..ie] == b[..p][..ie];
    assert c0[ie + 2..p] == c0[..p][ie + 2..] && b[ie + 2..p] == b[..p][ie + 2..];
  }

  lemma ZeroTail(b: seq<u8>, c: seq<u8>, i: nat, j: nat, k: nat)
    requires i <= j <= k <= |b| == |c| && c[j..] == b[j..] && Zero(c[i..j]) && Zero(b[j..k])
    ensures Zero(c[i..k]) && c[k..] == b[k..]
  {
    assert c[k..] == c[j..][k - j..] && b[k..] == b[j..][k - j..];
    assert c[i..k] == c[i..j] + c[j..][..k - j];
    assert b[j..k] == b[j..][..k - j];
  }

  /** `rtw_del_p2p_attr`: the element keeps exactly the other attributes, in order, and the
      space they no longer need is zero. */
  method DelP2pAttr(a: array<u8>, ie: nat, ielenOri: nat, id: u8, ghost attrs: seq<Attr>) returns (ielen: nat)
    requires AttrsFit(attrs) && 4 + |EncAttrs(attrs)| < 256
    requires ie + ielenOri <= a.Length && a[ie..ie + ielenOri] == EncP2p(attrs)
    modifies a
    ensures ielen <= ielenOri
    ensures a[..ie] == old(a[..ie]) && a[ie + ielenOri..] == old(a[ie + ielenOri..])
    ensures AttrsFit(DropAttr(attrs, id)) && 4 + |EncAttrs(DropAttr(attrs, id))| < 256
    ensures a[ie..ie + ielen] == EncP2p(DropAttr(attrs, id))
    ensures Zero(a[ie + ielen..ie + ielenOri])
  {
    hide EncAttrs, EncP2p, DropAttr, FirstAttr;
    ielen := ielenOri;
    ghost var ats := attrs;
    var more := true;
    while more
      invariant ielen <= ielenOri && AttrsFit(ats) && 4 + |EncAttrs(ats)| < 256
      invariant DropAttr(ats, id) == DropAttr(attrs, id)
      invariant a[..ie] == old(a[..ie]) && a[ie + ielenOri..] == old(a[ie + ielenOri..])
      invariant a[ie..ie + ielen] == EncP2p(ats)
      invariant Zero(a[ie + ielen..ie + ielenOri])
      invariant !more ==> forall x :: x in ats ==> x.id != id
      decreases |ats|, more
    {
      var target, alen := GetP2pAttr(a, ie, ielen, id, ats);
      ghost var k := FirstAttr(ats, id);
      if target >= 0 {
        CutAttrsFacts(ats, k, id);
        ghost var b := a[..];
        CutAttr(a, ie, ielen, target, alen, ats, k, id);
        ZeroTail(b, a[..], ie + ielen - alen, ie + ielen, ie + ielenOri);
        ielen := ielen - alen;
        ats := CutAttrs(ats, k);
      } else {
        more := false;
      }
    }
    DropAttrNone(ats, id);
  }

  // --- The whole list ----------------------------------------------------------------------

  lemma {:induction false} DropAllAppend(a: seq<Elem>, b: seq<Elem>, id: u8)
    ensures DropAll(a + b, id) == DropAll(a, id) + DropAll(b, id)
  {
    if a == [] {
      assert a + b == b;
    } else {
      assert (a + b)[1..] == a[1..] + b;
      DropAllAppend(a[1..], b, id);
    }
  }

  lemma {:induction false} DropAllOthers(xs: seq<Elem>, id: u8)
    requires forall j :: 0 <= j < |xs| ==> xs[j].Other?
    ensures DropAll(xs, id) == xs
  {
    if xs != [] { DropAllOthers(xs[1..], id); }
  }

  /** The second byte of an element says how many follow. */
  lemma ElemLength(x: Elem)
    requires ElemOk(x)
    ensures |EncElem(x)| >= 2 && EncElem(x)[1] == |EncElem(x)| - 2
  {
    hide EncAttrs;
  }

  /** The bytes determine the attributes, ... */
  lemma {:induction false} EncAttrsInjective(a: seq<Attr>, b: seq<Attr>)
    requires AttrsFit(a) && AttrsFit(b) && EncAttrs(a) == EncAttrs(b)
    ensures a == b
  {
    if a != [] && b != [] {
      var s := EncAttrs(a);
      var n, m := |a[0].body|, |b[0].body|;
      assert s[0] == a[0].id == b[0].id;
      assert s[1] == n % 256 == m % 256 && s[2] == n / 256 == m / 256;
      assert a[0].body == s[3..3 + n] == b[0].body;
      assert EncAttrs(a[1..]) == s[3 + n..] == EncAttrs(b[1..]);
      EncAttrsInjective(a[1..], b[1..]);
    }
  }

  lemma EncElemInjective(x: Elem, y: Elem)
    requires ElemOk(x) && ElemOk(y) && EncElem(x) == EncElem(y)
    ensures x == y
  {
    hide EncAttrs;
    var s := EncElem(x);
    match (x, y) {
      case (Other(e), Other(f)) =>
        assert s[0] == e.id == f.id && s[2..] == e.data == f.data;
      case (P2p(a), P2p(b)) =>
        assert s[6..] == EncAttrs(a) == EncAttrs(b);
        EncAttrsInjective(a, b);
      case (Other(e), P2p(b)) =>
        DisguisedP2p(e, b, s);
      case (P2p(a), Other(f)) =>
        DisguisedP2p(f, a, s);
    }
  }

  lemma DisguisedP2p(e: Ie, attrs: seq<Attr>, s: seq<u8>)
    requires e.Fits() && AttrsFit(attrs) && 4 + |EncAttrs(attrs)| < 256 && EncIe(e) == EncP2p(attrs) == s
    ensures IsP2p(e)
  {
    hide EncAttrs;
    assert s[0] == e.id && s[2..] == e.data == P2P_OUI + EncAttrs(attrs);
  }

  /** ... and the elements: a buffer holds at most one well-formed list. */
  lemma {:induction false} EncElemsInjective(a: seq<Elem>, b: seq<Elem>)
    requires ElemsOk(a) && ElemsOk(b) && EncElems(a) == EncElems(b)
    ensures a == b
  {
    hide ElemOk, EncElem;
    if a != [] && b != [] {
      var s := EncElems(a);
      ElemLength(a[0]);
      ElemLength(b[0]);
      var n := |EncElem(a[0])|;
      assert s[1] == n - 2 == |EncElem(b[0])| - 2;
      assert s[..n] == EncElem(a[0]) == EncElem(b[0]);
      assert s[n..] == EncElems(a[1..]) == EncElems(b[1..]);
      EncElemInjective(a[0], b[0]);
      EncElemsInjective(a[1..], b[1..]);
    } else if a != [] {
      ElemLength(a[0]);
    } else if b != [] {
      ElemLength(b[0]);
    }
  }

  /** What is left of the attribute: nothing; and dropping it again changes nothing. */
  lemma {:induction false} DropAllIdempotent(xs: seq<Elem>, id: u8)
    ensures DropAll(DropAll(xs, id), id) == DropAll(xs, id)
    ensures |DropAll(xs, id)| == |xs|
    ensures forall i :: 0 <= i < |xs| ==> DropAll(xs, id)[i] == DropElem(xs[i], id)
    ensures forall x :: x in DropAll(xs, id) && x.P2p? ==> forall a :: a in x.attrs ==> a.id != id
  {
    if xs != [] {
      var r := DropElem(xs[0], id);
      if xs[0].P2p? {
        DropAttrMembers(xs[0].attrs, id);
        DropAttrNone(DropAttr(xs[0].attrs, id), id);
      }
      DropAllIdempotent(xs[1..], id);
      assert DropAll(xs, id)[0] == r && DropAll(xs, id)[1..] == DropAll(xs[1..], id);
    }
  }

  /** What a reader sees at the head of an element list that occupies `b[p..e]`. */
  lemma ElemAt(b: seq<u8>, p: nat, e: nat, xs: seq<Elem>)
    requires ElemsOk(xs) && p <= e <= |b| && b[p..e] == EncElems(xs)
    ensures xs == [] <==> p == e
    ensures xs != [] ==>
      && ElemOk(xs[0]) && ElemsOk(xs[1..])
      && p + 2 <= e && p + 2 + b[p + 1] == p + |EncElem(xs[0])| <= e
      && b[p..p + |EncElem(xs[0])|] == EncElem(xs[0])
      && b[p + |EncElem(xs[0])|..e] == EncElems(xs[1..])
  {
    hide EncElem, ElemOk;
    if xs != [] {
      var s := b[p..e];
      assert xs[0] in xs;
      ElemLength(xs[0]);
      var n := |EncElem(xs[0])|;
      assert s == EncElem(xs[0]) + EncElems(xs[1..]);
      assert b[p + 1] == s[1];
      SliceSlice(b, p, e, 0, n);
      SliceSlice(b, p, e, n, e - p);
    }
  }

  /** The test of `rtw_get_p2p_ie` recognises P2P elements, all of which have six bytes or more. */
  lemma P2pTest(b: seq<u8>, p: nat, e: nat, xs: seq<Elem>)
    requires ElemsOk(xs) && p <= e <= |b| && b[p..e] == EncElems(xs) && xs != []
    ensures xs[0].P2p? ==> p + 6 <= e
    ensures p + 6 <= e ==> (xs[0].P2p? <==> b[p] == WLAN_EID_VENDOR_SPECIFIC && b[p + 2..p + 6] == P2P_OUI)
  {
    hide EncElems, EncAttrs;
    ElemAt(b, p, e, xs);
    var n := |EncElem(xs[0])|;
    var s := b[p..p + n];
    assert s[0] == b[p];
    match xs[0] {
      case P2p(attrs) =>
        P2pHead(b, p, n, attrs);
      case Other(ie) =>
        if p + 6 <= e && b[p] == WLAN_EID_VENDOR_SPECIFIC {
          SliceSlice(b, p, p + n, 2, 6);
          assert s[2..] == ie.data;
          assert s[2..6] == ie.data[..4];
        }
    }
  }

  /** A list of fewer than six bytes holds no P2P element. */
  lemma {:induction false} ShortTail(xs: seq<Elem>)
    requires ElemsOk(xs) && |EncElems(xs)| < 6
    ensures FirstP2p(xs) == |xs|
  {
    if xs != [] {
      assert xs[0] in xs;
      ShortTail(xs[1..]);
    }
  }

  lemma ElemsAdvance(pre: seq<Elem>, rest: seq<Elem>)
    requires ElemsOk(pre) && ElemsOk(rest) && rest != []
    ensures pre + rest == (pre + [rest[0]]) + rest[1..]
    ensures ElemOk(rest[0]) && ElemsOk(pre + [rest[0]])
    ensures |EncElems(pre + [rest[0]])| == |EncElems(pre)| + |EncElem(rest[0])|
  {
    hide EncElem, EncElems, ElemOk;
    assert rest[0] in rest;
    EncOne(rest[0]);
    EncElemsAppend(pre, [rest[0]]);
  }

  lemma EncOne(x: Elem)
    requires ElemOk(x)
    ensures ElemsOk([x]) && EncElems([x]) == EncElem(x)
  {
    hide EncElem, ElemOk;
    JoinOne(x, EncElem);
  }

  lemma FirstP2pIs(xs: seq<Elem>, pre: seq<Elem>, rest: seq<Elem>)
    requires xs == pre + rest && forall j :: 0 <= j < |pre| ==> pre[j].Other?
    requires FirstP2p(rest) == if rest != [] && rest[0].P2p? then 0 else |rest|
    ensures FirstP2p(xs) == |pre| + FirstP2p(rest) && xs[..|pre|] == pre
    ensures rest != [] && rest[0].P2p? ==> xs[|pre|] == rest[0]
  {
    assert forall j :: 0 <= j < |pre| ==> xs[j] == pre[j];
    assert forall j :: 0 <= j < |rest| ==> xs[|pre| + j] == rest[j];
  }

  /** `rtw_get_p2p_ie` without its copy-out option. */
  method GetP2pIe(buf: array<u8>, start: nat, inLen: nat, ghost xs: seq<Elem>) returns (p: int, ielen: nat)
    requires ElemsOk(xs) && inLen <= MAX_IE_SZ && start + inLen <= buf.Length
    requires buf[start..start + inLen] == EncElems(xs)
    ensures var m := FirstP2p(xs);
      if m < |xs| then
        ElemsOk(xs[..m]) && ElemOk(xs[m]) && p == start + |EncElems(xs[..m])| && ielen == |EncElem(xs[m])|
      else p == -1 && ielen == 0
  {
    hide EncElems, EncElem, FirstP2p, ElemOk;
    p, ielen := -1, 0;
    var cnt := 0;
    var stop := false;
    ghost var pre: seq<Elem>, rest := [], xs;
    NoElems();
    while cnt + 1 + 4 < inLen && !stop
      invariant xs == pre + rest && ElemsOk(pre) && ElemsOk(rest)
      invariant cnt == |EncElems(pre)| <= inLen && buf[start + cnt..start + inLen] == EncElems(rest)
      invariant forall j :: 0 <= j < |pre| ==> pre[j].Other?
      invariant if !stop then p == -1 && ielen == 0
                else rest != [] && rest[0].P2p? && ElemOk(rest[0]) && p == start + cnt && ielen == |EncElem(rest[0])|
      decreases |rest|, !stop
    {
      ElemAt(buf[..], start + cnt, start + inLen, rest);
      P2pTest(buf[..], start + cnt, start + inLen, rest);
      if cnt + 1 + 4 >= MAX_IE_SZ {
        assert false;
      } else if buf[start + cnt] == WLAN_EID_VENDOR_SPECIFIC && buf[start + cnt + 2..start + cnt + 6] == P2P_OUI {
        var len: int := buf[start + cnt + 1];
        p, ielen, stop := start + cnt, len + 2, true;
      } else {
        var len: int := buf[start + cnt + 1];
        ElemsAdvance(pre, rest);
        cnt := cnt + len + 2;
        pre, rest := pre + [rest[0]], rest[1..];
      }
    }
    if stop { FirstP2pHere(rest); } else { ShortTail(rest); }
    FirstP2pIs(xs, pre, rest);
  }

  lemma NoElems()
    ensures EncElems([]) == []
  {
  }

  lemma FirstP2pHere(xs: seq<Elem>)
    requires xs != [] && xs[0].P2p?
    ensures FirstP2p(xs) == 0
  {
  }

  lemma EmptyIsZero(s: seq<u8>, i: nat)
    requires i <= |s|
    ensures Zero(s[i..i])
  {
  }

  /** From `a0` to `b` only `[ie..src]` changed, from `b` to `c` the bytes from `src` to `e`
      moved down to `dst`. */
  lemma Regions(a0: seq<u8>, b: seq<u8>, c: seq<u8>, ie: nat, dst: nat, src: nat, e: nat)
    requires ie <= dst <= src <= e <= |a0| == |b| == |c|
    requires b[..ie] == a0[..ie] && b[src..] == a0[src..]
    requires c[..dst] == b[..dst] && c[dst..dst + (e - src)] == b[src..e] && c[e..] == b[e..]
    ensures c[..ie] == a0[..ie] && c[ie..dst] == b[ie..dst]
    ensures c[dst..dst + (e - src)] == a0[src..e] && c[e..] == a0[e..]
  {
    assert c[..ie] == c[..dst][..ie] && b[..ie] == b[..dst][..ie];
    assert c[ie..dst] == c[..dst][ie..] && b[ie..dst] == b[..dst][ie..];
    assert b[src..e] == b[src..][..e - src] && a0[src..e] == a0[src..][..e - src];
    assert b[e..] == b[src..][e - src..] && a0[e..] == a0[src..][e - src..];
  }

  lemma ThreeParts(b: seq<u8>, p: nat, e: nat, x: seq<u8>, y: seq<u8>, z: seq<u8>)
    requires p <= e <= |b| && b[p..e] == x + (y + z)
    ensures p + |x| + |y| + |z| == e
    ensures b[p..p + |x|] == x && b[p + |x|..p + |x| + |y|] == y && b[p + |x| + |y|..e] == z
  {
    var s := b[p..e];
    assert s[..|x|] == x && s[|x|..|x| + |y|] == y && s[|x| + |y|..] == z;
    SliceSlice(b, p, e, 0, |x|);
    SliceSlice(b, p, e, |x|, |x| + |y|);
    SliceSlice(b, p, e, |x| + |y|, e - p);
  }

  /** Where the elements around number `m` are in the buffer. */
  lemma ListSplit(b: seq<u8>, p: nat, e: nat, xs: seq<Elem>, m: nat)
    requires ElemsOk(xs) && m < |xs| && p <= e <= |b| && b[p..e] == EncElems(xs)
    requires ElemsOk(xs[..m]) && ElemOk(xs[m]) && ElemsOk(xs[m + 1..])
    requires EncElems(xs) == EncElems(xs[..m]) + (EncElem(xs[m]) + EncElems(xs[m + 1..]))
    ensures var q, n := p + |EncElems(xs[..m])|, |EncElem(xs[m])|;
      && q + n <= e && b[p..q] == EncElems(xs[..m]) && b[q..q + n] == EncElem(xs[m])
      && b[q + n..e] == EncElems(xs[m + 1..])
      && b[..q] == b[..p] + EncElems(xs[..m])
  {
    hide EncElems, EncElem, ElemOk;
    var x, y, z := EncElems(xs[..m]), EncElem(xs[m]), EncElems(xs[m + 1..]);
    ThreeParts(b, p, e, x, y, z);
    SliceJoin(b, 0, p, p + |x|);
  }

  /** Prefix and rest of the list once the first P2P element of `rest` is dealt with, ... */
  lemma DropStepList(done: seq<Elem>, rest: seq<Elem>, id: u8)
    requires FirstP2p(rest) < |rest|
    ensures var m := FirstP2p(rest);
      done + DropAll(rest, id) == (done + rest[..m] + [DropElem(rest[m], id)]) + DropAll(rest[m + 1..], id)
  {
    hide DropElem;
    var m := FirstP2p(rest);
    var tail := rest[m..];
    assert tail[0] == rest[m] && tail[1..] == rest[m + 1..];
    assert rest == rest[..m] + tail;
    DropAllAppend(rest[..m], tail, id);
    DropAllOthers(rest[..m], id);
    assert DropAll(tail, id) == [DropElem(rest[m], id)] + DropAll(rest[m + 1..], id);
  }

  /** ... and their encodings. */
  lemma DropStep(done: seq<Elem>, rest: seq<Elem>, id: u8)
    requires ElemsOk(done) && ElemsOk(rest) && FirstP2p(rest) < |rest|
    ensures var m := FirstP2p(rest);
      && ElemsOk(rest[..m]) && ElemsOk(rest[m + 1..]) && ElemOk(rest[m]) && ElemOk(DropElem(rest[m], id))
      && ElemsOk(done + rest[..m]) && ElemsOk(done + rest[..m] + [DropElem(rest[m], id)])
      && EncElems(done + rest[..m]) == EncElems(done) + EncElems(rest[..m])
      && EncElems(done + rest[..m] + [DropElem(rest[m], id)])
         == EncElems(done + rest[..m]) + EncElem(DropElem(rest[m], id))
      && EncElems(rest) == EncElems(rest[..m]) + (EncElem(rest[m]) + EncElems(rest[m + 1..]))
  {
    hide EncElem, EncElems, ElemOk, DropElem, FirstP2p;
    var m := FirstP2p(rest);
    assert rest[m] in rest;
    DropElemOk(rest[m], id);
    EncOne(DropElem(rest[m], id));
    EncOne(rest[m]);
    EncElemsAppend(done, rest[..m]);
    EncElemsAppend(done + rest[..m], [DropElem(rest[m], id)]);
    EncElemsAppend([rest[m]], rest[m + 1..]);
    EncElemsAppend(rest[..m], [rest[m]] + rest[m + 1..]);
    assert rest == rest[..m] + ([rest[m]] + rest[m + 1..]);
  }

  lemma DropEnd(xs: seq<Elem>, done: seq<Elem>, rest: seq<Elem>, id: u8)
    requires DropAll(xs, id) == done + DropAll(rest, id) && FirstP2p(rest) == |rest|
    requires ElemsOk(done) && ElemsOk(rest)
    ensures DropAll(xs, id) == done + rest && ElemsOk(done + rest)
    ensures EncElems(done + rest) == EncElems(done) + EncElems(rest)
  {
    DropAllOthers(rest, id);
    EncElemsAppend(done, rest);
  }

  /** The element buffer of a BSS descriptor.  Probe requests have no fixed part in front of
      their elements; every other frame type has twelve bytes. */
  class BssEx {
    const ies: array<u8>
    const probeReq: bool
    var ieLength: nat

    constructor (ies: array<u8>, probeReq: bool, ieLength: nat)
      ensures this.ies == ies && this.probeReq == probeReq && this.ieLength == ieLength
    {
      this.ies := ies;
      this.probeReq := probeReq;
      this.ieLength := ieLength;
    }

    function FixedOffset(): nat { if probeReq then 0 else 12 }

    /** The elements of the buffer are `xs`. */
    ghost predicate Holds(xs: seq<Elem>)
      reads this, ies
    {
      && ies.Length == MAX_IE_SZ && FixedOffset() <= ieLength <= MAX_IE_SZ
      && ElemsOk(xs) && ies[FixedOffset()..ieLength] == EncElems(xs)
    }

    /** One round of `rtw_bss_ex_del_p2p_attr`: shorten the P2P element at `ie`, then move the
        rest of the list down behind it. */
    method ShrinkElement(ie: nat, ieLenOri: nat, id: u8, ghost attrs: seq<Attr>) returns (ieLen: nat)
      requires AttrsFit(attrs) && 4 + |EncAttrs(attrs)| < 256
      requires ie + ieLenOri <= ieLength <= ies.Length && ies[ie..ie + ieLenOri] == EncP2p(attrs)
      modifies `ieLength, ies
      ensures AttrsFit(DropAttr(attrs, id)) && 4 + |EncAttrs(DropAttr(attrs, id))| < 256
      ensures ieLen <= ieLenOri && ieLength == old(ieLength) - (ieLenOri - ieLen)
      ensures ies[..ie] == old(ies[..ie])
      ensures ies[ie..ie + ieLen] == EncP2p(DropAttr(attrs, id))
      ensures ies[ie + ieLen..ieLength] == old(ies[ie + ieLenOri..ieLength])
      ensures Zero(ies[ieLength..old(ieLength)]) && ies[old(ieLength)..] == old(ies[ieLength..])
    {
      hide EncAttrs, EncP2p, DropAttr, Zero, Gap;
      var nextIeOri := ie + ieLenOri;
      ghost var a0 := ies[..];
      ieLen := DelP2pAttr(ies, ie, ieLenOri, id, attrs);
      ghost var b := ies[..];
      assert b[nextIeOri..] == a0[nextIeOri..] && b[..ie] == a0[..ie];
      if ieLen != ieLenOri {
        var nextIe := ie + ieLen;
        CloseGap(ies, nextIe, nextIeOri, ieLength);
        GapFacts(b, nextIe, nextIeOri, ieLength);
        ghost var c := ies[..];
        Regions(a0, b, c, ie, nextIe, nextIeOri, ieLength);
        assert ies[ie..nextIe] == c[ie..nextIe] == b[ie..nextIe];
        ieLength := ieLength - (ieLenOri - ieLen);
        assert ies[nextIe..ieLength] == c[nextIe..ieLength];
      } else {
        Regions(a0, b, b, ie, nextIeOri, nextIeOri, ieLength);
        EmptyIsZero(b, ieLength);
      }
    }

    /** Finding and shrinking the next P2P element from position `pos` on. */
    method DropNext(pos: nat, id: u8, ghost rest: seq<Elem>) returns (found: bool, next: nat)
      requires ElemsOk(rest) && pos <= ieLength <= ies.Length == MAX_IE_SZ && ies[pos..ieLength] == EncElems(rest)
      modifies `ieLength, ies
      ensures found <==> FirstP2p(rest) < |rest|
      ensures !found ==> next == pos && ieLength == old(ieLength) && ies[..] == old(ies[..])
      ensures found ==>
        var m := FirstP2p(rest);
        && ElemsOk(rest[..m]) && ElemOk(DropElem(rest[m], id)) && ElemsOk(rest[m + 1..])
        && pos <= next <= ieLength <= old(ieLength)
        && ies[..next] == (old(ies[..pos]) + EncElems(rest[..m])) + EncElem(DropElem(rest[m], id))
        && ies[next..ieLength] == EncElems(rest[m + 1..])
        && Zero(ies[ieLength..old(ieLength)]) && ies[old(ieLength)..] == old(ies[ieLength..])
    {
      hide EncElems, EncElem, EncAttrs, EncP2p, DropAttr, FirstP2p, Zero, ElemOk, DropElem;
      next := pos;
      var ie, ieLenOri := GetP2pIe(ies, pos, ieLength - pos, rest);
      found := ie >= 0;
      if found {
        ghost var m := FirstP2p(rest);
        DropStep([], rest, id);
        P2pElem(rest[m], id);
        ListSplit(ies[..], pos, ieLength, rest, m);
        assert ies[..][..pos] == ies[..pos] && ies[..][pos..ieLength] == ies[pos..ieLength];
        ghost var b, len0 := ies[..], ieLength;
        var ieLen := ShrinkElement(ie, ieLenOri, id, rest[m].attrs);
        next := ie + ieLen;
        SliceJoin(ies[..], 0, ie, next);
      }
    }

    /** `rtw_bss_ex_del_p2p_attr`: the buffer holds the same elements in the same order with the
        attribute gone from every P2P element; the bytes it vacates at the end are zero and
        nothing else changes. */
    method DelAttr(id: u8, ghost xs: seq<Elem>)
      requires Holds(xs)
      modifies `ieLength, ies
      ensures Holds(DropAll(xs, id))
      ensures ieLength <= old(ieLength) && ies[..FixedOffset()] == old(ies[..FixedOffset()])
      ensures Zero(ies[ieLength..old(ieLength)]) && ies[old(ieLength)..] == old(ies[ieLength..])
    {
      hide EncElems, EncElem, EncAttrs, DropAll, FirstP2p, Zero, ElemOk, DropElem;
      EmptyIsZero(ies[..], ieLength);
      NoElems();
      var pos := FixedOffset();
      var more := true;
      ghost var head := ies[..pos];
      ghost var done: seq<Elem>, rest := [], xs;
      while more
        invariant ElemsOk(done) && ElemsOk(rest) && DropAll(xs, id) == done + DropAll(rest, id)
        invariant FixedOffset() <= pos <= ieLength <= old(ieLength)
        invariant pos == FixedOffset() + |EncElems(done)| && ies[..pos] == head + EncElems(done)
        invariant ies[pos..ieLength] == EncElems(rest)
        invariant Zero(ies[ieLength..old(ieLength)]) && ies[old(ieLength)..] == old(ies[ieLength..])
        invariant !more ==> FirstP2p(rest) == |rest|
        decreases |rest|, more
      {
        ghost var b, len0 := ies[..], ieLength;
        more, pos := DropNext(pos, id, rest);
        if more {
          ghost var m := FirstP2p(rest);
          DropStep(done, rest, id);
          DropStepList(done, rest, id);
          Assoc(head, EncElems(done), EncElems(rest[..m]));
          Assoc(head, EncElems(done + rest[..m]), EncElem(DropElem(rest[m], id)));
          ZeroTail(b, ies[..], ieLength, len0, old(ieLength));
          done, rest := done + rest[..m] + [DropElem(rest[m], id)], rest[m + 1..];
        }
      }
      DropEnd(xs, done, rest, id);
      AfterHead(ies[..], head, EncElems(done), EncElems(rest), ieLength);
    }
  }

  lemma AfterHead(b: seq<u8>, head: seq<u8>, x: seq<u8>, y: seq<u8>, e: nat)
    requires |head| + |x| <= e <= |b| && b[..|head| + |x|] == head + x && b[|head| + |x|..e] == y
    ensures b[|head|..e] == x + y && b[..|head|] == head
  {
    SliceJoin(b, |head|, |head| + |x|, e);
    SliceSlice(b, 0, |head| + |x|, |head|, |head| + |x|);
    SliceSlice(b, 0, |head| + |x|, 0, |head|);
  }

  lemma P2pElem(x: Elem, id: u8)
    requires x.P2p? && ElemOk(x)
    ensures AttrsFit(x.attrs) && 4 + |EncAttrs(x.attrs)| < 256 && EncElem(x) == EncP2p(x.attrs)
    ensures DropElem(x, id) == P2p(DropAttr(x.attrs, id)) && ElemOk(DropElem(x, id))
    ensures AttrsFit(DropAttr(x.attrs, id)) && 4 + |EncAttrs(DropAttr(x.attrs, id))| < 256
    ensures EncElem(DropElem(x, id)) == EncP2p(DropAttr(x.attrs, id))
  {
    hide EncAttrs, DropAttr, EncP2p;
    DropElemOk(x, id);
  }
}
