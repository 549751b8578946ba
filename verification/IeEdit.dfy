/**
  Editing a buffer of information elements in place: the driver's element filter
  (`rtw_ies_remove_ie`) and the byte moves it is made of.
 */
module IeEdit {
  import opened IeList
  import opened Sequences

  /** memmove within one buffer. */
  method Memmove(a: array<u8>, dst: nat, src: nat, n: nat)
    requires dst + n <= a.Length && src + n <= a.Length
    modifies a
    ensures a[..] == old(a[..dst]) + old(a[src..src + n]) + old(a[dst + n..])
  {
    forall i | 0 <= i < n { a[dst + i] := a[src + i]; }
  }

  /** memset. */
  method Memset(a: array<u8>, dst: nat, v: u8, n: nat)
    requires dst + n <= a.Length
    modifies a
    ensures a[..] == old(a[..dst]) + seq(n, _ => v) + old(a[dst + n..])
  {
    forall i | 0 <= i < n { a[dst + i] := v; }
  }

  /** memcpy from a value. */
  method Write(a: array<u8>, dst: nat, v: seq<u8>)
    requires dst + |v| <= a.Length
    modifies a
    ensures a[..] == old(a[..dst]) + v + old(a[dst + |v|..])
  {
    forall i | 0 <= i < |v| { a[dst + i] := v[i]; }
  }

  predicate Matches(e: Ie, eid: u8, oui: seq<u8>) {
    e.id == eid && oui <= e.data
  }

  /** The comparison with the vendor prefix stays inside every element it is made for. */
  ghost predicate OuiInside(es: seq<Ie>, eid: u8, oui: seq<u8>) {
    forall e :: e in es && e.id == eid ==> |oui| <= |e.data|
  }

  function FirstMatch(es: seq<Ie>, eid: u8, oui: seq<u8>): (k: nat)
    ensures k <= |es|
    ensures k < |es| ==> Matches(es[k], eid, oui)
    ensures forall j :: 0 <= j < k ==> !Matches(es[j], eid, oui)
  {
    First(es, (e: Ie) => Matches(e, eid, oui))
  }

  /** The elements that do not match, in order. */
  function Keep(es: seq<Ie>, eid: u8, oui: seq<u8>): seq<Ie> {
    if es == [] then []
    else (if Matches(es[0], eid, oui) then [] else [es[0]]) + Keep(es[1..], eid, oui)
  }

  lemma {:induction false} KeepAppend(a: seq<Ie>, b: seq<Ie>, eid: u8, oui: seq<u8>)
    ensures Keep(a + b, eid, oui) == Keep(a, eid, oui) + Keep(b, eid, oui)
  {
    if a == [] {
      assert a + b == b;
    } else {
      assert (a + b)[1..] == a[1..] + b;
      KeepAppend(a[1..], b, eid, oui);
    }
  }

  /** What filtering keeps fits, is in the list and does not match; and it keeps everything
      exactly if nothing matches. */
  lemma {:induction false} KeepFacts(es: seq<Ie>, eid: u8, oui: seq<u8>)
    ensures forall e :: e in Keep(es, eid, oui) <==> e in es && !Matches(e, eid, oui)
    ensures |Keep(es, eid, oui)| <= |es|
    ensures Keep(es, eid, oui) == es <==> FirstMatch(es, eid, oui) == |es|
    ensures Keep(es, eid, oui) == es <==> |Keep(es, eid, oui)| == |es|
  {
    if es != [] {
      KeepFacts(es[1..], eid, oui);
      if Matches(es[0], eid, oui) {
        assert |Keep(es, eid, oui)| < |es|;
      } else {
        assert Keep(es, eid, oui)[1..] == Keep(es[1..], eid, oui);
      }
    }
  }

  /** Filtering twice is filtering once. */
  lemma KeepIdempotent(es: seq<Ie>, eid: u8, oui: seq<u8>)
    ensures Keep(Keep(es, eid, oui), eid, oui) == Keep(es, eid, oui)
    ensures FirstMatch(Keep(es, eid, oui), eid, oui) == |Keep(es, eid, oui)|
  {
    var ks := Keep(es, eid, oui);
    KeepFacts(es, eid, oui);
    KeepFacts(ks, eid, oui);
    assert forall j :: 0 <= j < |ks| ==> ks[j] in ks;
  }

  /** Reading the id and comparing the vendor prefix of element `k` in the buffer. */
  lemma PrefixAt(b: seq<u8>, start: nat, s: seq<u8>, es: seq<Ie>, k: nat, eid: u8, oui: seq<u8>)
    requires AllFit(es) && k < |es| && OuiInside(es, eid, oui)
    requires start + |s| <= |b| && s == b[start..start + |s|] && s == Enc(es)
    ensures AllFit(es[..k])
    ensures var p := start + |Enc(es[..k])|;
      && p + 2 + |es[k].data| <= start + |s| && b[p] == es[k].id && b[p + 1] == |es[k].data|
      && (es[k].id != eid ==> !Matches(es[k], eid, oui))
      && (es[k].id == eid ==> |oui| <= |es[k].data| && (Matches(es[k], eid, oui) <==> b[p + 2..p + 2 + |oui|] == oui))
  {
    hide Enc;
    AtBoundary(s, es, k);
    assert es[k] in es;
    var q := |Enc(es[..k])|;
    assert b[start + q] == s[q] && b[start + q + 1] == s[q + 1];
    if es[k].id == eid {
      SliceSlice(b, start, start + |s|, q + 2, q + 2 + |oui|);
      SliceSlice(s, q + 2, q + 2 + |es[k].data|, 0, |oui|);
    }
  }

  /** The test of the loop below on element `k`: whether it matches, and its length byte. */
  method TestAt(buf: array<u8>, start: nat, inLen: nat, cnt: nat, eid: u8, oui: seq<u8>, ghost es: seq<Ie>,
        ghost k: nat)
    returns (hit: bool, len: nat)
    requires start + inLen <= buf.Length && AllFit(es) && buf[start..start + inLen] == Enc(es)
    requires OuiInside(es, eid, oui) && k < |es| && AllFit(es[..k]) && cnt == |Enc(es[..k])|
    ensures len == |es[k].data| && (hit <==> Matches(es[k], eid, oui))
    ensures AllFit(es[..k + 1]) && cnt + 2 + len == |Enc(es[..k + 1])| <= inLen
    ensures cnt + 2 + len == inLen <==> k + 1 == |es|
  {
    hide Enc, Matches;
    PrefixAt(buf[..], start, buf[start..start + inLen], es, k, eid, oui);
    var id;
    id, len := HeaderAt(buf, start, inLen, start + cnt, es, k);
    hit := eid == id && buf[start + cnt + 2..start + cnt + 2 + |oui|] == oui;
  }

  /** `rtw_get_ie_ex` without its copy-out options: position of the first match, or -1, and
      the size of the whole element. */
  method GetIeEx(buf: array<u8>, start: nat, inLen: nat, eid: u8, oui: seq<u8>, ghost es: seq<Ie>)
    returns (p: int, ielen: nat)
    requires start + inLen <= buf.Length && AllFit(es) && buf[start..start + inLen] == Enc(es)
    requires OuiInside(es, eid, oui)
    ensures var k := FirstMatch(es, eid, oui);
      if k < |es| then AllFit(es[..k]) && p == start + |Enc(es[..k])| && ielen == 2 + |es[k].data|
      else p == -1 && ielen == 0
  {
    hide Enc, Matches, OuiInside;
    p, ielen := -1, 0;
    var cnt := 0;
    ghost var k := 0;
    WalkStarts(es);
    while cnt < inLen && p < 0
      invariant k <= |es| && AllFit(es[..k]) && cnt == |Enc(es[..k])| <= inLen
      invariant cnt == inLen <==> k == |es|
      invariant forall j :: 0 <= j < k ==> !Matches(es[j], eid, oui)
      invariant if p < 0 then p == -1 && ielen == 0
                else k < |es| && Matches(es[k], eid, oui) && p == start + cnt && ielen == 2 + |es[k].data|
      decreases inLen - cnt, p < 0
    {
      var hit, len := TestAt(buf, start, inLen, cnt, eid, oui, es, k);
      if hit {
        p, ielen := start + cnt, len + 2;
      } else {
        cnt := cnt + len + 2;
        k := k + 1;
      }
    }
  }

  /** Cutting element `m` out of the encoded list `es` that occupies `b[start..end]`. */
  lemma CutOut(b: seq<u8>, start: nat, end: nat, es: seq<Ie>, m: nat)
    requires AllFit(es) && m < |es| && start <= end <= |b| && b[start..end] == Enc(es)
    ensures AllFit(es[..m]) && AllFit(es[m + 1..])
    ensures var target := start + |Enc(es[..m])|;
      var next := target + 2 + |es[m].data|;
      && next <= end
      && b[..target] == b[..start] + Enc(es[..m])
      && b[next..end] == Enc(es[m + 1..])
  {
    hide Enc;
    EncSplit(es, m);
    var n := |Enc(es[..m])|;
    SliceSlice(b, start, end, 0, n);
    SliceSlice(b, start, end, n + 2 + |es[m].data|, end - start);
  }

  /** Cutting it by moving the rest of the list down. */
  method CutElement(a: array<u8>, start: nat, end: nat, ghost es: seq<Ie>, ghost m: nat, target: nat, size: nat)
    requires AllFit(es) && m < |es| && start <= end <= a.Length && a[start..end] == Enc(es)
    requires AllFit(es[..m]) && target == start + |Enc(es[..m])| && size == 2 + |es[m].data|
    modifies a
    ensures AllFit(es[m + 1..]) && start <= target <= end - size
    ensures a[..target] == old(a[..start]) + Enc(es[..m])
    ensures a[target..end - size] == Enc(es[m + 1..])
    ensures a[end..] == old(a[end..])
  {
    hide Enc;
    ghost var b := a[..];
    assert a[start..end] == b[start..end] && a[..start] == b[..start] && a[end..] == b[end..];
    CutOut(b, start, end, es, m);
    Memmove(a, target, target + size, end - (target + size));
    MovedDown(b, a[..], target, target + size, end);
  }

  lemma TailOfTail(b: seq<u8>, c: seq<u8>, i: nat, j: nat)
    requires i <= j <= |b| == |c| && b[i..] == c[i..]
    ensures b[j..] == c[j..]
  {
    assert b[j..] == b[i..][j - i..] && c[j..] == c[i..][j - i..];
  }

  /** What a move of `b[src..end]` down to `dst` leaves where. */
  lemma MovedDown(b: seq<u8>, c: seq<u8>, dst: nat, src: nat, end: nat)
    requires dst <= src <= end <= |b| && c == b[..dst] + b[src..end] + b[dst + (end - src)..]
    ensures |c| == |b| && c[..dst] == b[..dst] && c[dst..dst + (end - src)] == b[src..end] && c[end..] == b[end..]
  {
  }

  /** Filtering a list keeps what comes before the first match and drops the match. */
  lemma KeepFirst(es: seq<Ie>, eid: u8, oui: seq<u8>)
    requires FirstMatch(es, eid, oui) < |es|
    ensures var m := FirstMatch(es, eid, oui);
      Keep(es, eid, oui) == es[..m] + Keep(es[m + 1..], eid, oui)
  {
    hide Matches, FirstMatch;
    var m := FirstMatch(es, eid, oui);
    KeepNone(es[..m], eid, oui);
    KeepAppend(es[..m], es[m..], eid, oui);
    assert es == es[..m] + es[m..];
    assert es[m..][0] == es[m] && es[m..][1..] == es[m + 1..];
  }

  lemma {:induction false} KeepNone(es: seq<Ie>, eid: u8, oui: seq<u8>)
    requires forall j :: 0 <= j < |es| ==> !Matches(es[j], eid, oui)
    ensures Keep(es, eid, oui) == es
  {
    hide Matches;
    if es != [] {
      KeepNone(es[1..], eid, oui);
    }
  }

  /** `rtw_ies_remove_ie`: every matching element from `offset` on is cut out, whatever comes
      before `offset` or after the list is left alone, and the result says whether anything
      was cut. */
  method IesRemoveIe(ies: array<u8>, iesLen: nat, offset: nat, eid: u8, oui: seq<u8>, ghost es: seq<Ie>)
    returns (ok: bool, newLen: nat)
    requires iesLen <= ies.Length && AllFit(es) && OuiInside(es, eid, oui)
    requires if offset < iesLen then ies[offset..iesLen] == Enc(es) else es == []
    modifies ies
    ensures AllFit(Keep(es, eid, oui))
    ensures ok <==> Keep(es, eid, oui) != es
    ensures if offset < iesLen
      then newLen == offset + |Enc(Keep(es, eid, oui))| <= iesLen
           && ies[..newLen] == old(ies[..offset]) + Enc(Keep(es, eid, oui)) && ies[iesLen..] == old(ies[iesLen..])
      else newLen == iesLen && ies[..] == old(ies[..])
  {
    hide Enc, Keep, Matches, OuiInside;
    ok, newLen := false, iesLen;
    KeepFacts(es, eid, oui);
    if offset < iesLen {
      newLen, ok := CutMatches(ies, iesLen, offset, eid, oui, es);
    } else {
      assert Keep(es, eid, oui) == es;
    }
  }

  /** One cut, on values: `kept` grows by what precedes the match. */
  lemma CutStep(p0: seq<u8>, kept: seq<Ie>, rest: seq<Ie>, eid: u8, oui: seq<u8>)
    requires AllFit(kept) && AllFit(rest) && FirstMatch(rest, eid, oui) < |rest|
    ensures var m := FirstMatch(rest, eid, oui);
      && AllFit(rest[..m]) && AllFit(kept + rest[..m]) && AllFit(rest[m + 1..])
      && (OuiInside(rest, eid, oui) ==> OuiInside(rest[m + 1..], eid, oui))
      && (p0 + Enc(kept)) + Enc(rest[..m]) == p0 + Enc(kept + rest[..m])
      && |Enc(kept + rest[..m])| == |Enc(kept)| + |Enc(rest[..m])|
      && kept + Keep(rest, eid, oui) == (kept + rest[..m]) + Keep(rest[m + 1..], eid, oui)
  {
    hide Enc, Keep, Matches;
    var m := FirstMatch(rest, eid, oui);
    KeepFirst(rest, eid, oui);
    EncAppend(kept, rest[..m]);
    Assoc(p0, Enc(kept), Enc(rest[..m]));
    Assoc(kept, rest[..m], Keep(rest[m + 1..], eid, oui));
  }

  /** One round of `rtw_ies_remove_ie` that finds a match. */
  method CutFirst(ies: array<u8>, iesLen: nat, start: nat, newLen: nat, target: nat, ielen: nat, eid: u8, oui: seq<u8>,
        ghost head: seq<u8>, ghost kept: seq<Ie>, ghost rest: seq<Ie>)
    requires start <= newLen <= iesLen <= ies.Length && AllFit(kept) && AllFit(rest)
    requires ies[..start] == head + Enc(kept) && ies[start..newLen] == Enc(rest)
    requires var m := FirstMatch(rest, eid, oui);
      m < |rest| && AllFit(rest[..m]) && target == start + |Enc(rest[..m])| && ielen == 2 + |rest[m].data|
    modifies ies
    ensures var m := FirstMatch(rest, eid, oui);
      && start <= target <= newLen - ielen
      && AllFit(kept + rest[..m]) && AllFit(rest[m + 1..])
      && (OuiInside(rest, eid, oui) ==> OuiInside(rest[m + 1..], eid, oui))
      && kept + Keep(rest, eid, oui) == (kept + rest[..m]) + Keep(rest[m + 1..], eid, oui)
      && target == |head| + |Enc(kept + rest[..m])| && ies[..target] == head + Enc(kept + rest[..m])
      && ies[target..newLen - ielen] == Enc(rest[m + 1..])
    ensures ies[iesLen..] == old(ies[iesLen..])
  {
    hide Enc, Keep, Matches, OuiInside;
    ghost var m := FirstMatch(rest, eid, oui);
    CutStep(head, kept, rest, eid, oui);
    ghost var b := ies[..];
    CutElement(ies, start, newLen, rest, m, target, ielen);
    TailOfTail(b, ies[..], newLen, iesLen);
  }

  /** The loop of `rtw_ies_remove_ie`. */
  method CutMatches(ies: array<u8>, iesLen: nat, offset: nat, eid: u8, oui: seq<u8>, ghost es: seq<Ie>)
    returns (newLen: nat, ok: bool)
    requires offset < iesLen <= ies.Length && AllFit(es) && OuiInside(es, eid, oui) && ies[offset..iesLen] == Enc(es)
    requires AllFit(Keep(es, eid, oui))
    modifies ies
    ensures ok <==> Keep(es, eid, oui) != es
    ensures newLen == offset + |Enc(Keep(es, eid, oui))| <= iesLen
    ensures ies[..newLen] == old(ies[..offset]) + Enc(Keep(es, eid, oui)) && ies[iesLen..] == old(ies[iesLen..])
  {
    hide Enc, Keep, Matches, OuiInside;
    ok, newLen := false, iesLen;
    var start, searchLen := offset, iesLen - offset;
    var more := true;
    ghost var kept: seq<Ie>, rest := [], es;
    KeepFacts(es, eid, oui);
    EncEmpty([]);
    while more
      invariant AllFit(kept) && AllFit(rest) && OuiInside(rest, eid, oui)
      invariant Keep(es, eid, oui) == kept + Keep(rest, eid, oui)
      invariant ok <==> |kept| + |rest| < |es|
      invariant |kept| + |rest| <= |es|
      invariant start <= newLen == start + searchLen <= iesLen
      invariant start == offset + |Enc(kept)| && ies[..start] == old(ies[..offset]) + Enc(kept)
      invariant ies[start..newLen] == Enc(rest)
      invariant ies[iesLen..] == old(ies[iesLen..])
      invariant !more ==> FirstMatch(rest, eid, oui) == |rest|
      decreases |rest|, more
    {
      var target, ielen := GetIeEx(ies, start, searchLen, eid, oui, rest);
      if target >= 0 {
        ghost var m := FirstMatch(rest, eid, oui);
        CutFirst(ies, iesLen, start, newLen, target, ielen, eid, oui, old(ies[..offset]), kept, rest);
        newLen := newLen - ielen;
        ok := true;
        start := target;
        searchLen := newLen - target;
        kept, rest := kept + rest[..m], rest[m + 1..];
      } else {
        more := false;
      }
    }
    KeepFacts(rest, eid, oui);
    EncAppend(kept, rest);
    Assoc(old(ies[..offset]), Enc(kept), Enc(rest));
    SliceJoin(ies[..], 0, start, newLen);
  }
}
