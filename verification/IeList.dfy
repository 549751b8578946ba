/**
  Information elements: what a list of them is, the bytes that encode it, and the driver's
  search functions over those bytes.
 */
module IeList {
  import opened Sequences

  type u8 = x: int | 0 <= x < 256

  datatype Ie = Ie(id: u8, data: seq<u8>)
  {
    predicate Fits() { |data| < 256 }
  }

  ghost predicate AllFit(es: seq<Ie>) {
    forall e :: e in es ==> e.Fits()
  }

  function EncIe(e: Ie): seq<u8>
    requires e.Fits()
  {
    [e.id, |e.data|] + e.data
  }

  function Enc(es: seq<Ie>): seq<u8>
    requires AllFit(es)
  {
    Join(es, EncIe)
  }

  lemma EncAppend(a: seq<Ie>, b: seq<Ie>)
    requires AllFit(a) && AllFit(b)
    ensures AllFit(a + b) && Enc(a + b) == Enc(a) + Enc(b)
  {
    JoinAppend(a, b, EncIe);
  }

  /** The encoding around element `k`. */
  lemma EncSplit(es: seq<Ie>, k: nat)
    requires AllFit(es) && k < |es|
    ensures AllFit(es[..k]) && AllFit(es[k + 1..]) && es[k].Fits()
    ensures Enc(es) == Enc(es[..k]) + (EncIe(es[k]) + Enc(es[k + 1..]))
    ensures |Enc(es[..k + 1])| == |Enc(es[..k])| + 2 + |es[k].data|
  {
    JoinSplit(es, k, EncIe);
  }

  /** Two well-formed element lists with the same bytes are the same list. */
  lemma {:induction false} EncInjective(a: seq<Ie>, b: seq<Ie>)
    requires AllFit(a) && AllFit(b) && Enc(a) == Enc(b)
    ensures a == b
  {
    if a != [] && b != [] {
      var s := Enc(a);
      assert s[0] == a[0].id && s[1] == |a[0].data|;
      assert s[0] == b[0].id && s[1] == |b[0].data|;
      assert a[0].data == s[2..2 + |a[0].data|] == b[0].data;
      assert Enc(a[1..]) == s[2 + |a[0].data|..] == Enc(b[1..]);
      EncInjective(a[1..], b[1..]);
    }
  }

  /** The position of the first element with this id, or the length of the list. */
  function FirstIndex(es: seq<Ie>, id: u8): (k: nat)
    ensures k <= |es|
    ensures k < |es| ==> es[k].id == id
    ensures forall j :: 0 <= j < k ==> es[j].id != id
  {
    First(es, (e: Ie) => e.id == id)
  }

  /** The bytes at an element boundary. */
  lemma AtBoundary(s: seq<u8>, es: seq<Ie>, k: nat)
    requires AllFit(es) && s == Enc(es) && k <= |es|
    ensures AllFit(es[..k]) && |Enc(es[..k])| <= |s|
    ensures k == |es| <==> |Enc(es[..k])| == |s|
    ensures k < |es| ==>
      var p := |Enc(es[..k])|;
      && p + 2 + |es[k].data| <= |s|
      && s[p] == es[k].id && s[p + 1] == |es[k].data|
      && s[p + 2..p + 2 + |es[k].data|] == es[k].data
      && |Enc(es[..k + 1])| == p + 2 + |es[k].data|
  {
    if k < |es| {
      EncSplit(es, k);
    } else {
      assert es[..k] == es;
    }
  }

  /** The start of a walk: the end is where it starts exactly if there is no element. */
  lemma WalkStarts(es: seq<Ie>)
    requires AllFit(es)
    ensures AllFit(es[..0]) && Enc(es[..0]) == [] && (Enc(es) == [] <==> es == [])
  {
  }

  /** Reading the two-byte header of element `k`, and where the element after it is. */
  method HeaderAt(buf: array<u8>, start: nat, limit: nat, at: nat, ghost es: seq<Ie>, ghost k: nat)
    returns (id: u8, len: nat)
    requires start + limit <= buf.Length && AllFit(es) && buf[start..start + limit] == Enc(es)
    requires k < |es| && AllFit(es[..k]) && at == start + |Enc(es[..k])|
    ensures at + 1 < start + limit && id == es[k].id == buf[at] && len == |es[k].data| == buf[at + 1]
    ensures AllFit(es[..k + 1]) && at + 2 + len == start + |Enc(es[..k + 1])| <= start + limit
    ensures at + 2 + len == start + limit <==> k + 1 == |es|
  {
    hide Enc;
    ghost var s := buf[start..start + limit];
    AtBoundary(s, es, k);
    AtBoundary(s, es, k + 1);
    id, len := buf[at], buf[at + 1];
    assert s[at - start] == id && s[at - start + 1] == len;
  }

  /** `rtw_get_ie`: walk `limit` bytes from `start` for the first element with this id.  The
      result is its position, or -1, and the length of its data. */
  method GetIe(buf: array<u8>, start: nat, id: u8, limit: int, ghost es: seq<Ie>) returns (p: int, len: nat)
    requires 0 <= limit && start + limit <= buf.Length && AllFit(es) && buf[start..start + limit] == Enc(es)
    ensures var k := FirstIndex(es, id);
      if k < |es| then AllFit(es[..k]) && p == start + |Enc(es[..k])| && len == |es[k].data| else p == -1 && len == 0
  {
    hide Enc;
    p, len := -1, 0;
    var i := 0;
    ghost var k := 0;
    WalkStarts(es);
    while i < limit && p < 0
      invariant k <= |es| && AllFit(es[..k]) && i == |Enc(es[..k])| <= limit
      invariant i == limit <==> k == |es|
      invariant forall j :: 0 <= j < k ==> es[j].id != id
      invariant if p < 0 then p == -1 && len == 0
                else k < |es| && es[k].id == id && p == start + i && len == |es[k].data|
      decreases limit - i, p < 0
    {
      var eid, dataLen := HeaderAt(buf, start, limit, start + i, es, k);
      if eid == id {
        p, len := start + i, dataLen;
      } else {
        i := i + dataLen + 2;
        k := k + 1;
      }
    }
  }

  lemma EncEmpty(es: seq<Ie>)
    ensures Enc(es[..0]) == []
  {
  }
}
