/**
  Splicing elements into and out of a beacon: `rtw_add_bcn_ie` and `rtw_remove_bcn_ie`.
 */
module BeaconIe {
  import opened IeList
  import opened Sequences
  import opened IeEdit

  const FIXED_IE_LENGTH := 12

  // --- The specification on element lists ---------------------------------------------------

  ghost predicate Sorted(es: seq<Ie>) {
    forall i, j :: 0 <= i < j < |es| ==> es[i].id <= es[j].id
  }

  /** The position at which the driver stops looking for a place for `id`. */
  function Place(es: seq<Ie>, id: u8): (k: nat)
    ensures k <= |es|
    ensures forall j :: 0 <= j < k ==> es[j].id < id
    ensures k < |es| ==> es[k].id >= id
  {
    if es == [] then 0 else if es[0].id >= id then 0 else 1 + Place(es[1..], id)
  }

  /** An element with this id is there, and it has data. */
  predicate Replaces(es: seq<Ie>, id: u8) {
    var k := Place(es, id);
    k < |es| && es[k].id == id && es[k].data != []
  }

  /** There is none, and the element before its place exists and has data. */
  predicate Inserts(es: seq<Ie>, id: u8) {
    var k := Place(es, id);
    (k < |es| ==> es[k].id != id) && k > 0 && es[k - 1].data != []
  }

  /** What `rtw_add_bcn_ie` does to the list: replace, insert, or (silently) nothing. */
  function Added(es: seq<Ie>, id: u8, data: seq<u8>): seq<Ie> {
    var k := Place(es, id);
    if Replaces(es, id) then es[k := Ie(id, data)]
    else if Inserts(es, id) then es[..k] + [Ie(id, data)] + es[k..]
    else es
  }

  /** What `rtw_remove_bcn_ie` does: the first element with this id goes if it has data. */
  function Removed(es: seq<Ie>, id: u8): seq<Ie> {
    var k := FirstIndex(es, id);
    if k < |es| && es[k].data != [] then es[..k] + es[k + 1..] else es
  }

  lemma InsertSorted(es: seq<Ie>, k: nat, x: Ie)
    requires Sorted(es) && k <= |es|
    requires (forall j :: 0 <= j < k ==> es[j].id <= x.id) && (k < |es| ==> x.id <= es[k].id)
    ensures Sorted(es[..k] + [x] + es[k..])
  {
    var xs := es[..k] + [x] + es[k..];
    assert forall n :: 0 <= n < |xs| ==> xs[n] == if n < k then es[n] else if n == k then x else es[n - 1];
  }

  lemma AddedSorted(es: seq<Ie>, id: u8, data: seq<u8>)
    requires Sorted(es)
    ensures Sorted(Added(es, id, data))
  {
    if Inserts(es, id) {
      InsertSorted(es, Place(es, id), Ie(id, data));
    }
  }

  lemma RemovedSorted(es: seq<Ie>, id: u8)
    requires Sorted(es)
    ensures Sorted(Removed(es, id))
  {
    var k := FirstIndex(es, id);
    var rs := Removed(es, id);
    if k < |es| && es[k].data != [] {
      assert forall n :: 0 <= n < |rs| ==> rs[n] == if n < k then es[n] else es[n + 1];
    }
  }

  /** Removing undoes adding exactly when a non-empty element was really inserted, or when
      nothing was added and the list has no element with this id or an empty one first. */
  lemma RemoveUndoesAdd(es: seq<Ie>, id: u8, data: seq<u8>)
    ensures Removed(Added(es, id, data), id) == es
       <==> if Inserts(es, id) then data != []
            else !Replaces(es, id) && (FirstIndex(es, id) == |es| || es[FirstIndex(es, id)].data == [])
  {
    hide Place, FirstIndex, Added, Removed, Inserts, Replaces;
    InsertsOrReplaces(es, id);
    if Inserts(es, id) {
      InsertThenRemove(es, id, data);
    } else if Replaces(es, id) {
      ReplaceThenRemove(es, id, data);
    } else {
      NotAdded(es, id, data);
      RemovedSame(es, id);
    }
  }

  lemma InsertThenRemove(es: seq<Ie>, id: u8, data: seq<u8>)
    requires Inserts(es, id) && !Replaces(es, id)
    ensures Removed(Added(es, id, data), id) == es <==> data != []
  {
    hide Place, FirstIndex;
    var k := Place(es, id);
    var added := Added(es, id, data);
    FirstIs(added, k, id);
    assert added[..k] == es[..k] && added[k + 1..] == es[k..];
    assert es == es[..k] + es[k..];
  }

  lemma ReplaceThenRemove(es: seq<Ie>, id: u8, data: seq<u8>)
    requires Replaces(es, id)
    ensures Removed(Added(es, id, data), id) != es
  {
    hide Place, FirstIndex;
    var k := Place(es, id);
    var added := Added(es, id, data);
    FirstIs(added, k, id);
    assert |Removed(added, id)| == if data != [] then |es| - 1 else |es|;
    assert added[k] == Ie(id, data) && es[k].data != [];
  }

  lemma InsertsOrReplaces(es: seq<Ie>, id: u8)
    ensures !(Inserts(es, id) && Replaces(es, id))
  {
  }

  lemma RemovedSame(es: seq<Ie>, id: u8)
    ensures Removed(es, id) == es <==> FirstIndex(es, id) == |es| || es[FirstIndex(es, id)].data == []
  {
    hide FirstIndex;
    var k := FirstIndex(es, id);
    assert k < |es| ==> |es[..k] + es[k + 1..]| == |es| - 1;
  }

  lemma FirstIs(es: seq<Ie>, k: nat, id: u8)
    requires k < |es| && es[k].id == id && forall j :: 0 <= j < k ==> es[j].id != id
    ensures FirstIndex(es, id) == k
  {
  }

  // --- The buffer -----------------------------------------------------------------------------

  /** The driver's splice: back up what follows `rem`, write the new bytes at `dst`, and write
      the backup behind them. */
  method Splice(a: array<u8>, dst: nat, bytes: seq<u8>, rem: nat, len: nat)
    requires dst <= rem <= len <= a.Length && dst + |bytes| + (len - rem) <= a.Length
    modifies a
    ensures a[..dst + |bytes| + (len - rem)] == old(a[..dst]) + bytes + old(a[rem..len])
    ensures a[dst + |bytes| + (len - rem)..] == old(a[dst + |bytes| + (len - rem)..])
  {
    ghost var b := a[..];
    var backup := a[rem..len];
    Write(a, dst, bytes);
    ghost var b1 := a[..];
    assert b1[..dst + |bytes|] == b[..dst] + bytes;
    Write(a, dst + |bytes|, backup);
    assert a[..dst + |bytes| + (len - rem)] == b1[..dst + |bytes|] + backup;
  }

  /** A BSS's element area: a fixed part of twelve bytes, then elements. */
  class Beacon {
    const ies: array<u8>
    var ieLength: nat

    constructor (ies: array<u8>, ieLength: nat)
      ensures this.ies == ies && this.ieLength == ieLength
    {
      this.ies := ies;
      this.ieLength := ieLength;
    }

    ghost predicate Holds(es: seq<Ie>)
      reads this, ies
    {
      FIXED_IE_LENGTH <= ieLength <= ies.Length && AllFit(es) && ies[FIXED_IE_LENGTH..ieLength] == Enc(es)
    }

    /** `rtw_remove_bcn_ie`. */
    method Remove(index: u8, ghost es: seq<Ie>)
      requires Holds(es)
      modifies `ieLength, ies
      ensures Holds(Removed(es, index))
      ensures ies[..FIXED_IE_LENGTH] == old(ies[..FIXED_IE_LENGTH])
    {
      hide Enc, FirstIndex;
      var p, ielen := GetIe(ies, FIXED_IE_LENGTH, index, ieLength - FIXED_IE_LENGTH, es);
      if p >= 0 && ielen > 0 {
        ghost var k := FirstIndex(es, index);
        ghost var b := ies[..];
        RemoveBytes(b, FIXED_IE_LENGTH, ieLength, es, k);
        Splice(ies, p, [], p + ielen + 2, ieLength);
        ieLength := ieLength - (ielen + 2);
        HeadAndList(ies[..], b, FIXED_IE_LENGTH, ieLength, Enc(Removed(es, index)));
      }
    }

    /** `rtw_add_bcn_ie`, for a buffer with room for the result. */
    method Add(index: u8, data: seq<u8>, ghost es: seq<Ie>)
      requires Holds(es) && |data| < 256
      requires AllFit(Added(es, index, data)) ==> FIXED_IE_LENGTH + |Enc(Added(es, index, data))| <= ies.Length
      modifies `ieLength, ies
      ensures Holds(Added(es, index, data))
      ensures ies[..FIXED_IE_LENGTH] == old(ies[..FIXED_IE_LENGTH])
    {
      hide Enc, Place, Added;
      var match_, p, ielen := FindPlace(index, es);
      ghost var k := Place(es, index);
      ghost var b := ies[..];
      if p >= 0 && ielen > 0 {
        var dst := if match_ then p else p + ielen + 2;
        AddBytes(b, FIXED_IE_LENGTH, ieLength, es, index, data);
        Splice(ies, dst, [index, |data|] + data, p + ielen + 2, ieLength);
        ieLength := dst + (2 + |data|) + (ieLength - (p + ielen + 2));
        HeadAndList(ies[..], b, FIXED_IE_LENGTH, ieLength, Enc(Added(es, index, data)));
      } else {
        NotAdded(es, index, data);
      }
    }

    /** The search loop of `rtw_add_bcn_ie`: the element to replace, or else the one before the
        place to insert at. */
    method FindPlace(index: u8, ghost es: seq<Ie>) returns (match_: bool, p: int, ielen: nat)
      requires Holds(es)
      ensures var k := Place(es, index);
        && AllFit(es[..k])
        && (match_ <==> k < |es| && es[k].id == index)
        && (match_ ==> p == FIXED_IE_LENGTH + |Enc(es[..k])| && ielen == |es[k].data|)
        && (!match_ && k == 0 ==> p == -1)
        && (!match_ && k > 0 ==>
              AllFit(es[..k - 1]) && p == FIXED_IE_LENGTH + |Enc(es[..k - 1])| && ielen == |es[k - 1].data|)
    {
      hide Enc;
      match_, p, ielen := false, -1, 0;
      var i := FIXED_IE_LENGTH;
      var stop := false;
      ghost var k := 0;
      WalkStarts(es);
      while i < ieLength && !stop
        invariant k <= |es| && AllFit(es[..k]) && i == FIXED_IE_LENGTH + |Enc(es[..k])| <= ieLength
        invariant i == ieLength <==> k == |es|
        invariant forall j :: 0 <= j < k ==> es[j].id < index
        invariant stop ==> k < |es| && es[k].id >= index
        invariant match_ <==> stop && es[k].id == index
        invariant match_ ==> p == i && ielen == |es[k].data|
        invariant !match_ && k == 0 ==> p == -1
        invariant !match_ && k > 0 ==>
          AllFit(es[..k - 1]) && p == FIXED_IE_LENGTH + |Enc(es[..k - 1])| && ielen == |es[k - 1].data|
        decreases |es| - k, !stop
      {
        var id, len := HeaderAt(ies, FIXED_IE_LENGTH, ieLength - FIXED_IE_LENGTH, i, es, k);
        if id > index {
          stop := true;
        } else if id == index {
          match_, p, ielen, stop := true, i, len, true;
        } else {
          p, ielen := i, len;
          i := i + len + 2;
          k := k + 1;
        }
      }
      PlaceIs(es, index, k);
    }
  }

  lemma PlaceIs(es: seq<Ie>, id: u8, k: nat)
    requires k <= |es| && (forall j :: 0 <= j < k ==> es[j].id < id) && (k < |es| ==> es[k].id >= id)
    ensures Place(es, id) == k
  {
  }

  lemma NotAdded(es: seq<Ie>, id: u8, data: seq<u8>)
    requires !Replaces(es, id) && !Inserts(es, id)
    ensures Added(es, id, data) == es
  {
  }

  /** The bytes of a list in which one element takes the place of `es[i..j]`. */
  lemma SpliceBytes(b: seq<u8>, p: nat, e: nat, es: seq<Ie>, i: nat, j: nat, x: Ie)
    requires AllFit(es) && p <= e <= |b| && b[p..e] == Enc(es) && i <= j <= |es| && x.Fits()
    ensures AllFit(es[..i]) && AllFit(es[..j]) && AllFit(es[..i] + ([x] + es[j..]))
    ensures p + |Enc(es[..i])| <= e && p + |Enc(es[..j])| <= e
    ensures b[..p + |Enc(es[..i])|] + EncIe(x) + b[p + |Enc(es[..j])|..e] == b[..p] + Enc(es[..i] + ([x] + es[j..]))
  {
    hide Enc;
    PrefixBytes(b, p, e, es, i);
    SuffixBytes(b, p, e, es, j);
    EncOneIe(x);
    EncAppend([x], es[j..]);
    EncAppend(es[..i], [x] + es[j..]);
    Assoc(b[..p] + Enc(es[..i]), EncIe(x), Enc(es[j..]));
    Assoc(b[..p], Enc(es[..i]), EncIe(x) + Enc(es[j..]));
  }

  lemma SuffixBytes(b: seq<u8>, p: nat, e: nat, es: seq<Ie>, j: nat)
    requires AllFit(es) && p <= e <= |b| && b[p..e] == Enc(es) && j <= |es|
    ensures AllFit(es[..j]) && AllFit(es[j..]) && p + |Enc(es[..j])| <= e
    ensures b[p + |Enc(es[..j])|..e] == Enc(es[j..])
  {
    hide Enc;
    assert es == es[..j] + es[j..];
    EncAppend(es[..j], es[j..]);
    SliceSlice(b, p, e, |Enc(es[..j])|, e - p);
  }

  /** The bytes of a list with an element replaced, or inserted behind a non-empty one. */
  lemma AddBytes(b: seq<u8>, p: nat, e: nat, es: seq<Ie>, id: u8, data: seq<u8>)
    requires AllFit(es) && p <= e <= |b| && b[p..e] == Enc(es) && |data| < 256
    requires Replaces(es, id) || Inserts(es, id)
    ensures AllFit(Added(es, id, data))
    ensures var k := if Replaces(es, id) then Place(es, id) else Place(es, id) - 1;
      && AllFit(es[..k])
      && var q := p + |Enc(es[..k])|;
         var r := q + 2 + |es[k].data|;
         && r <= e
         && b[..if Replaces(es, id) then q else r] + ([id, |data|] + data) + b[r..e]
            == b[..p] + Enc(Added(es, id, data))
  {
    hide Enc, Place, Added, Inserts;
    AddedIs(es, id, data);
    var rep := Replaces(es, id);
    var k := if rep then Place(es, id) else Place(es, id) - 1;
    EncSplit(es, k);
    SpliceBytes(b, p, e, es, if rep then k else k + 1, k + 1, Ie(id, data));
  }

  lemma AddedIs(es: seq<Ie>, id: u8, data: seq<u8>)
    requires Replaces(es, id) || Inserts(es, id)
    ensures var k := if Replaces(es, id) then Place(es, id) else Place(es, id) - 1;
      && 0 <= k < |es|
      && Added(es, id, data) == es[..if Replaces(es, id) then k else k + 1] + ([Ie(id, data)] + es[k + 1..])
  {
    hide Place;
    var x := Ie(id, data);
    if Replaces(es, id) {
      UpdateIs(es, Place(es, id), x);
    } else {
      Assoc(es[..Place(es, id)], [x], es[Place(es, id)..]);
    }
  }

  lemma EncOneIe(x: Ie)
    requires x.Fits()
    ensures AllFit([x]) && Enc([x]) == EncIe(x)
  {
    JoinOne(x, EncIe);
  }

  lemma PrefixBytes(b: seq<u8>, p: nat, e: nat, es: seq<Ie>, k: nat)
    requires AllFit(es) && p <= e <= |b| && b[p..e] == Enc(es) && k <= |es|
    ensures AllFit(es[..k]) && p + |Enc(es[..k])| <= e
    ensures b[..p + |Enc(es[..k])|] == b[..p] + Enc(es[..k])
  {
    hide Enc;
    assert es == es[..k] + es[k..];
    EncAppend(es[..k], es[k..]);
    SliceSlice(b, p, e, 0, |Enc(es[..k])|);
    SliceJoin(b, 0, p, p + |Enc(es[..k])|);
  }

  /** The bytes of a list without element `k`, in place. */
  lemma RemoveBytes(b: seq<u8>, p: nat, e: nat, es: seq<Ie>, k: nat)
    requires AllFit(es) && k < |es| && p <= e <= |b| && b[p..e] == Enc(es)
    ensures AllFit(es[..k]) && AllFit(es[k + 1..]) && AllFit(es[..k] + es[k + 1..])
    ensures var q := p + |Enc(es[..k])|;
      var r := q + 2 + |es[k].data|;
      && r <= e && b[..q] + [] + b[r..e] == b[..p] + Enc(es[..k] + es[k + 1..])
  {
    hide Enc;
    CutOut(b, p, e, es, k);
    EncAppend(es[..k], es[k + 1..]);
    Assoc(b[..p], Enc(es[..k]), Enc(es[k + 1..]));
    assert b[..p + |Enc(es[..k])|] + [] == b[..p + |Enc(es[..k])|];
  }

  /** Reading a buffer's head and list back from one concatenation. */
  lemma HeadAndList(c: seq<u8>, b: seq<u8>, p: nat, e: nat, s: seq<u8>)
    requires p <= |b| && e <= |c| && c[..e] == b[..p] + s
    ensures p <= e && c[..p] == b[..p] && c[p..e] == s
  {
    SliceSlice(c, 0, e, 0, p);
    SliceSlice(c, 0, e, p, e);
  }
}
