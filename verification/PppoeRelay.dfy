/**
  The PPPoE relay of the NAT2.5 bridge: requests from a client get a Relay-Session-Id tag
  that carries the client's MAC address, and replies are sent back to the address in it
  (appendix A of RFC 2516).
 */
module PppoeRelay {
  import opened IeList
  import opened Sequences
  import opened IeEdit

  const ETH_ALEN := 6
  const LENGTH_AT := 18
  const TAGS_AT := 20
  const TAG_HDR_LEN := 4
  const TAG_BUF := 40
  const RELAY_SID: u16 := 0x0110
  const MAGIC: seq<u8> := [0x81, 0x86]
  const RELAY_LEN := 8

  type u16 = x: int | 0 <= x < 0x1_0000

  // --- Tags ---------------------------------------------------------------------------------

  datatype Tag = Tag(typ: u16, body: seq<u8>)
  {
    predicate Fits() { |body| < 0x1_0000 }
  }

  ghost predicate AllFitTags(ts: seq<Tag>) {
    forall t :: t in ts ==> t.Fits()
  }

  function Be16(v: u16): (r: seq<u8>)
    ensures |r| == 2
  {
    [v / 256, v % 256]
  }

  function U16(hi: u8, lo: u8): u16 {
    var high: int := hi;
    high * 256 + lo
  }

  function EncTag(t: Tag): seq<u8>
    requires t.Fits()
  {
    Be16(t.typ) + Be16(|t.body|) + t.body
  }

  function EncTags(ts: seq<Tag>): seq<u8>
    requires AllFitTags(ts)
  {
    Join(ts, EncTag)
  }

  lemma EncTagsAppend(a: seq<Tag>, b: seq<Tag>)
    requires AllFitTags(a) && AllFitTags(b)
    ensures AllFitTags(a + b) && EncTags(a + b) == EncTags(a) + EncTags(b)
  {
    JoinAppend(a, b, EncTag);
  }

  /** Two tag lists with the same bytes are the same list. */
  lemma {:induction false} EncTagsInjective(a: seq<Tag>, b: seq<Tag>)
    requires AllFitTags(a) && AllFitTags(b) && EncTags(a) == EncTags(b)
    ensures a == b
  {
    if a != [] && b != [] {
      var s := EncTags(a);
      var n, m := |a[0].body|, |b[0].body|;
      assert s[0] == a[0].typ / 256 == b[0].typ / 256 && s[1] == a[0].typ % 256 == b[0].typ % 256;
      assert s[2] == n / 256 == m / 256 && s[3] == n % 256 == m % 256;
      assert a[0].body == s[4..4 + n] == b[0].body;
      assert EncTags(a[1..]) == s[4 + n..] == EncTags(b[1..]);
      EncTagsInjective(a[1..], b[1..]);
    }
  }

  lemma EncOneTag(t: Tag)
    requires t.Fits()
    ensures AllFitTags([t]) && EncTags([t]) == EncTag(t)
  {
    JoinOne(t, EncTag);
  }

  lemma NoTags(ts: seq<Tag>)
    ensures EncTags([]) == [] && ts[..0] == []
  {
  }

  /** The bytes at tag `k`. */
  lemma TagAt(s: seq<u8>, ts: seq<Tag>, k: nat)
    requires AllFitTags(ts) && s == EncTags(ts) && k < |ts|
    ensures AllFitTags(ts[..k]) && AllFitTags(ts[..k + 1])
    ensures var p := |EncTags(ts[..k])|;
      && p + 4 + |ts[k].body| <= |s|
      && U16(s[p], s[p + 1]) == ts[k].typ && U16(s[p + 2], s[p + 3]) == |ts[k].body|
      && s[p + 4..p + 4 + |ts[k].body|] == ts[k].body
      && |EncTags(ts[..k + 1])| == p + 4 + |ts[k].body|
  {
    JoinSplit(ts, k, EncTag);
  }

  lemma TagsEnd(ts: seq<Tag>, k: nat)
    requires AllFitTags(ts) && k <= |ts|
    ensures AllFitTags(ts[..k]) && |EncTags(ts[..k])| <= |EncTags(ts)|
    ensures k == |ts| <==> |EncTags(ts[..k])| == |EncTags(ts)|
  {
    hide EncTags;
    if k < |ts| {
      TagAt(EncTags(ts), ts, k);
    } else {
      assert ts[..k] == ts;
    }
  }

  /** The bytes of a list in which `xs` takes the place of `ts[i..j]`. */
  lemma SpliceTags(s: seq<u8>, ts: seq<Tag>, i: nat, j: nat, xs: seq<Tag>)
    requires AllFitTags(ts) && s == EncTags(ts) && i <= j <= |ts| && AllFitTags(xs)
    ensures AllFitTags(ts[..i]) && AllFitTags(ts[..j]) && AllFitTags(ts[..i] + xs + ts[j..])
    ensures |EncTags(ts[..i])| <= |s| && |EncTags(ts[..j])| <= |s|
    ensures s[..|EncTags(ts[..i])|] + EncTags(xs) + s[|EncTags(ts[..j])|..] == EncTags(ts[..i] + xs + ts[j..])
  {
    hide EncTags;
    assert ts == ts[..i] + ts[i..] == ts[..j] + ts[j..];
    EncTagsAppend(ts[..i], ts[i..]);
    EncTagsAppend(ts[..j], ts[j..]);
    EncTagsAppend(ts[..i], xs);
    EncTagsAppend(ts[..i] + xs, ts[j..]);
  }

  function FirstTag(ts: seq<Tag>, typ: u16): (k: nat)
    ensures k <= |ts|
    ensures k < |ts| ==> ts[k].typ == typ
    ensures forall j :: 0 <= j < k ==> ts[j].typ != typ
  {
    First(ts, (t: Tag) => t.typ == typ)
  }

  // --- The specification on tag lists ---------------------------------------------------------

  function OldBody(ts: seq<Tag>): seq<u8> {
    var k := FirstTag(ts, RELAY_SID);
    if k < |ts| then ts[k].body else []
  }

  /** The list without its first relay tag. */
  function Others(ts: seq<Tag>): seq<Tag> {
    var k := FirstTag(ts, RELAY_SID);
    if k < |ts| then ts[..k] + ts[k + 1..] else ts
  }

  /** What a request is forwarded with: the client's address, then what the old tag held. */
  function Relayed(ts: seq<Tag>, mac: seq<u8>): seq<Tag> {
    [Tag(RELAY_SID, MAGIC + mac + OldBody(ts))] + Others(ts)
  }

  /** A reply whose first relay tag the driver wrote. */
  predicate Answers(ts: seq<Tag>) {
    var k := FirstTag(ts, RELAY_SID);
    k < |ts| && |ts[k].body| >= RELAY_LEN && ts[k].body[..2] == MAGIC
  }

  /** What is left of it for the client. */
  function Answered(ts: seq<Tag>): seq<Tag>
    requires Answers(ts)
  {
    var k := FirstTag(ts, RELAY_SID);
    var mine := ts[k].body[RELAY_LEN..];
    ts[..k] + (if mine == [] then [] else [Tag(RELAY_SID, mine)]) + ts[k + 1..]
  }

  function MovedToFront(ts: seq<Tag>): seq<Tag> {
    var k := FirstTag(ts, RELAY_SID);
    if k < |ts| then [ts[k]] + ts[..k] + ts[k + 1..] else ts
  }

  /** A reply that echoes the tags of a request leads back to the client's address. */
  lemma EchoAnswers(ts: seq<Tag>, mac: seq<u8>)
    requires |mac| == ETH_ALEN
    ensures Answers(Relayed(ts, mac)) && FirstTag(Relayed(ts, mac), RELAY_SID) == 0
    ensures Relayed(ts, mac)[0].body[2..RELAY_LEN] == mac
    ensures Answered(Relayed(ts, mac)) == (if OldBody(ts) == [] then [] else [Tag(RELAY_SID, OldBody(ts))]) + Others(ts)
  {
    hide FirstTag, Others, OldBody;
    var body := MAGIC + mac + OldBody(ts);
    var rs := Relayed(ts, mac);
    FirstTagIs(rs, 0, RELAY_SID);
    assert rs[0].body == body && body[..2] == MAGIC && body[2..RELAY_LEN] == mac && body[RELAY_LEN..] == OldBody(ts);
    assert rs[1..] == Others(ts) && rs[..0] == [];
  }

  /** And the client sees its own tags again, the relay tag first, unless its relay tag was
      empty: that one is lost. */
  lemma RoundTrip(ts: seq<Tag>, mac: seq<u8>)
    requires |mac| == ETH_ALEN
    ensures Answers(Relayed(ts, mac))
    ensures Answered(Relayed(ts, mac)) == MovedToFront(ts) <==> FirstTag(ts, RELAY_SID) == |ts| || OldBody(ts) != []
  {
    hide FirstTag, Others, OldBody, MovedToFront, Answered, Answers, Relayed;
    EchoAnswers(ts, mac);
    FrontIsOthers(ts);
    var mine := [Tag(RELAY_SID, OldBody(ts))];
    assert |mine + Others(ts)| != |[] + Others(ts)|;
    assert [] + Others(ts) == Others(ts);
  }

  lemma FrontIsOthers(ts: seq<Tag>)
    ensures FirstTag(ts, RELAY_SID) == |ts| ==> MovedToFront(ts) == Others(ts) && OldBody(ts) == []
    ensures FirstTag(ts, RELAY_SID) < |ts| ==> MovedToFront(ts) == [Tag(RELAY_SID, OldBody(ts))] + Others(ts)
  {
    hide FirstTag;
    var k := FirstTag(ts, RELAY_SID);
    if k < |ts| {
      Assoc([ts[k]], ts[..k], ts[k + 1..]);
    }
  }

  // --- Frames -----------------------------------------------------------------------------------

  /** An Ethernet frame: addresses at 0 and 6, the PPPoE header at 14, tags at 20. */
  class Skb {
    const buf: array<u8>
    var len: nat

    constructor (buf: array<u8>, len: nat)
      ensures this.buf == buf && this.len == len
    {
      this.buf := buf;
      this.len := len;
    }

    /** The value of `ph->length`. */
    function TagsLen(): nat
      requires TAGS_AT <= buf.Length
      reads this, buf
    {
      U16(buf[LENGTH_AT], buf[LENGTH_AT + 1])
    }

    ghost predicate Holds(ts: seq<Tag>)
      reads this, buf
    {
      && TAGS_AT <= len <= buf.Length && TAGS_AT + TagsLen() <= len
      && AllFitTags(ts) && buf[TAGS_AT..TAGS_AT + TagsLen()] == EncTags(ts)
    }

    method SetTagsLen(n: nat)
      requires TAGS_AT <= buf.Length
      modifies buf
      ensures buf[..LENGTH_AT] == old(buf[..LENGTH_AT]) && buf[TAGS_AT..] == old(buf[TAGS_AT..])
      ensures TagsLen() == n % 0x1_0000
    {
      buf[LENGTH_AT], buf[LENGTH_AT + 1] := n / 256 % 256, n % 256;
    }

    /** The length field of a tag at `p`, inside the frame. */
    ghost predicate LengthAt(p: nat, t: Tag)
      requires TAGS_AT <= buf.Length
      reads this, buf
    {
      && p + 4 + |t.body| <= TAGS_AT + TagsLen() && p + 4 <= buf.Length
      && U16(buf[p + 2], buf[p + 3]) == |t.body|
    }

    /** `__nat25_find_pppoe_tag`. */
    method FindTag(typ: u16, ghost ts: seq<Tag>) returns (p: int)
      requires Holds(ts)
      ensures var k := FirstTag(ts, typ);
        if k < |ts| then
          AllFitTags(ts[..k]) && p == TAGS_AT + |EncTags(ts[..k])| && LengthAt(p, ts[k])
        else p == -1
    {
      hide EncTags, EncTag, FirstTag, U16, Be16;
      p := -1;
      var cur := 0;
      ghost var k := 0;
      ghost var s := buf[TAGS_AT..TAGS_AT + TagsLen()];
      NoTags(ts);
      TagsEnd(ts, 0);
      while cur < TagsLen() && p < 0
        invariant k <= |ts| && AllFitTags(ts[..k]) && cur == |EncTags(ts[..k])|
        invariant cur < TagsLen() <==> k < |ts|
        invariant forall j :: 0 <= j < k ==> ts[j].typ != typ
        invariant p == -1 || (k < |ts| && ts[k].typ == typ && p == TAGS_AT + cur && LengthAt(p, ts[k]))
        decreases |ts| - k, p < 0
      {
        TagAt(s, ts, k);
        var t0, t1, l0, l1 :=
          buf[TAGS_AT + cur], buf[TAGS_AT + cur + 1], buf[TAGS_AT + cur + 2], buf[TAGS_AT + cur + 3];
        assert t0 == s[cur] && t1 == s[cur + 1] && l0 == s[cur + 2] && l1 == s[cur + 3];
        if U16(t0, t1) == typ {
          p := TAGS_AT + cur;
        } else {
          cur := cur + TAG_HDR_LEN + U16(l0, l1);
          k := k + 1;
          TagsEnd(ts, k);
        }
      }
      FirstTagIs(ts, k, typ);
    }

    /** `skb_pull_and_merge`: cut `n` bytes at `src` out of the frame. */
    method PullAndMerge(src: nat, n: nat) returns (ok: bool)
      requires len <= buf.Length
      modifies `len, buf
      ensures ok <==> src + n <= old(len)
      ensures !ok ==> len == old(len) && buf[..] == old(buf[..])
      ensures ok ==> len == old(len) - n && buf[..len] == old(buf[..src]) + old(buf[src + n..len])
    {
      ok := src + n <= len;
      if ok {
        Memmove(buf, src, src + n, len - (src + n));
        len := len - n;
      }
    }

    /** The cut and the correction of `ph->length` that both handlers make. */
    method CutBytes(p: nat, m: nat) returns (ok: bool)
      requires TAGS_AT <= len <= buf.Length && TAGS_AT <= p && p + m <= TAGS_AT + TagsLen() <= len
      modifies `len, buf
      ensures ok && len == old(len) - m && TagsLen() == old(TagsLen()) - m && buf[..LENGTH_AT] == old(buf[..LENGTH_AT])
      ensures var s := old(buf[TAGS_AT..TAGS_AT + TagsLen()]);
        buf[TAGS_AT..TAGS_AT + TagsLen()] == s[..p - TAGS_AT] + s[p - TAGS_AT + m..]
    {
      assert TagsLen() < 0x1_0000;
      hide U16, TagsLen;
      var n := TagsLen();
      ghost var b := buf[..];
      assert b[TAGS_AT..TAGS_AT + n] == buf[TAGS_AT..TAGS_AT + n] && b[..LENGTH_AT] == buf[..LENGTH_AT];
      ok := PullAndMerge(p, m);
      ghost var c := buf[..];
      if ok {
        SetTagsLen(n - m);
        ghost var d := buf[..];
        CutAll(b, c, d, old(len), n, p, m);
        assert d[TAGS_AT..TAGS_AT + (n - m)] == buf[TAGS_AT..TAGS_AT + (n - m)] && d[..LENGTH_AT] == buf[..LENGTH_AT];
      }
    }

    /** Drop the first relay tag of a request, keeping its body behind the place for the magic
        and the address; -1 if the tag buffer is too small for it. */
    method TakeOldTag(tag: array<u8>, ghost ts: seq<Tag>) returns (oldLen: int)
      requires Holds(ts) && tag.Length == TAG_BUF && tag != buf
      modifies `len, buf, tag
      ensures oldLen == if |OldBody(ts)| + TAG_HDR_LEN + RELAY_LEN > TAG_BUF then -1 else |OldBody(ts)|
      ensures oldLen < 0 ==> len == old(len) && buf[..] == old(buf[..])
      ensures oldLen >= 0 ==>
        Holds(Others(ts)) && len == old(len) - OldSize(ts) && buf[..LENGTH_AT] == old(buf[..LENGTH_AT])
      ensures oldLen >= 0 ==> tag[TAG_HDR_LEN + RELAY_LEN..TAG_HDR_LEN + RELAY_LEN + oldLen] == OldBody(ts)
    {
      hide EncTags, FirstTag, U16, OldBody, Others, OldSize;
      oldLen := 0;
      var p := FindTag(RELAY_SID, ts);
      RelayParts(ts);
      if p >= 0 {
        ghost var k := FirstTag(ts, RELAY_SID);
        oldLen := U16(buf[p + 2], buf[p + 3]);
        if oldLen + TAG_HDR_LEN + RELAY_LEN > TAG_BUF {
          oldLen := -1;
        } else {
          TagInFrame(buf[..], TagsLen(), ts, k);
          Write(tag, TAG_HDR_LEN + RELAY_LEN, buf[p + 4..p + 4 + oldLen]);
          CutTag(p, oldLen, ts, k);
        }
      }
    }

    /** Cut tag `k` out of the frame. */
    method CutTag(p: nat, tagLen: nat, ghost ts: seq<Tag>, ghost k: nat)
      requires Holds(ts) && k < |ts| && tagLen == |ts[k].body| && AllFitTags(ts[..k])
      requires p == TAGS_AT + |EncTags(ts[..k])|
      modifies `len, buf
      ensures Holds(ts[..k] + ts[k + 1..])
      ensures buf[..LENGTH_AT] == old(buf[..LENGTH_AT]) && len == old(len) - (TAG_HDR_LEN + tagLen)
    {
      hide EncTags, U16;
      DropTag(buf[TAGS_AT..TAGS_AT + TagsLen()], ts, k);
      var ok := CutBytes(p, TAG_HDR_LEN + tagLen);
    }

    /** The growth of the frame and the move in `__nat25_add_pppoe_tag`. */
    method PutTag(v: seq<u8>)
      requires len + |v| <= buf.Length && TAGS_AT <= len && TAGS_AT + TagsLen() <= len
      modifies `len, buf
      ensures len == old(len) + |v| && buf[..LENGTH_AT] == old(buf[..LENGTH_AT])
      ensures TagsLen() == (old(TagsLen()) + |v|) % 0x1_0000
      ensures buf[TAGS_AT..TAGS_AT + |v| + old(TagsLen())] == v + old(buf[TAGS_AT..TAGS_AT + TagsLen()])
    {
      hide U16;
      var n := TagsLen();
      len := len + |v|;
      Memmove(buf, TAGS_AT + |v|, TAGS_AT, n);
      ghost var c := buf[..];
      SetTagsLen(n + |v|);
      ghost var d := buf[..];
      Write(buf, TAGS_AT, v);
      FilledGap(old(buf[..]), c, d, buf[..], n, |v|, v);
    }

    /** `__nat25_add_pppoe_tag`: the length of the tag is read from it in host byte order. */
    method AddTag(tag: array<u8>, bigEndian: bool) returns (r: Code)
      requires tag.Length == TAG_BUF && tag != buf && TAGS_AT <= len <= buf.Length && TAGS_AT + TagsLen() <= len
      modifies `len, buf
      ensures var need := TAG_HDR_LEN + (if bigEndian then U16(tag[2], tag[3]) else U16(tag[3], tag[2]));
        && r == (if buf.Length - old(len) < need then Err else if need > TAG_BUF then PastBuffer else Ok)
        && (r != Ok ==> len == old(len) && buf[..] == old(buf[..]))
        && (r == Ok ==>
              && len == old(len) + need && buf[..LENGTH_AT] == old(buf[..LENGTH_AT])
              && TagsLen() == (old(TagsLen()) + need) % 0x1_0000
              && buf[TAGS_AT..TAGS_AT + need + old(TagsLen())] == tag[..need] + old(buf[TAGS_AT..TAGS_AT + TagsLen()]))
    {
      hide U16;
      var dataLen := TAG_HDR_LEN + if bigEndian then U16(tag[2], tag[3]) else U16(tag[3], tag[2]);
      if buf.Length - len < dataLen {
        r := Err;
      } else if dataLen > TAG_BUF {
        r := PastBuffer;
      } else {
        PutTag(tag[..dataLen]);
        r := Ok;
      }
    }

    /** The PADI/PADR branch of `nat25_db_handle` with relay tags on.  Only a host whose byte
        order is the network's can add the tag: on the other kind the swapped length is more than
        the buffer the tag is built in. */
    method ForwardRequest(bigEndian: bool, ghost ts: seq<Tag>) returns (r: Code)
      requires Holds(ts)
      modifies `len, buf
      ensures var room := buf.Length - old(len) + OldSize(ts);
        var need := TAG_HDR_LEN + HostOrder(bigEndian, RELAY_LEN + |OldBody(ts)|);
        r == if RELAY_LEN + TAG_HDR_LEN + |OldBody(ts)| > TAG_BUF || room < need then Err
             else if bigEndian then Ok else PastBuffer
      ensures buf[..LENGTH_AT] == old(buf[..LENGTH_AT])
      ensures RELAY_LEN + TAG_HDR_LEN + |OldBody(ts)| > TAG_BUF ==> len == old(len) && buf[..] == old(buf[..])
      ensures RELAY_LEN + TAG_HDR_LEN + |OldBody(ts)| <= TAG_BUF && r != Ok ==>
        Holds(Others(ts)) && len == old(len) - OldSize(ts)
      ensures r == Ok ==>
        && len == old(len) - OldSize(ts) + TAG_HDR_LEN + RELAY_LEN + |OldBody(ts)|
        && AllFitTags(Relayed(ts, old(buf[6..12])))
        && (|EncTags(Relayed(ts, old(buf[6..12])))| < 0x1_0000 ==> Holds(Relayed(ts, old(buf[6..12]))))
    {
      hide EncTags, EncTag, FirstTag, U16, OldBody, Others, OldSize, HostOrder;
      var tag := new u8[TAG_BUF](_ => 0);
      var oldLen := TakeOldTag(tag, ts);
      if oldLen < 0 {
        r := Err;
      } else {
        var mac := buf[6..12];
        assert mac == buf[..LENGTH_AT][6..12] == old(buf[6..12]);
        FillTag(tag, mac, oldLen);
        r := AddTag(tag, bigEndian);
        LengthInHostOrder(bigEndian, RELAY_LEN + oldLen);
        if r == Ok {
          var t := Tag(RELAY_SID, MAGIC + mac + OldBody(ts));
          EncOneTag(t);
          EncTagsAppend([t], Others(ts));
          assert Relayed(ts, mac) == [t] + Others(ts);
        }
      }
    }

    /** The PADO/PADS branch of `nat25_db_handle` with relay tags on. */
    method ForwardReply(ghost ts: seq<Tag>) returns (r: Code)
      requires Holds(ts)
      modifies `len, buf
      ensures r == if Answers(ts) then Ok else Err
      ensures r != Ok ==> len == old(len) && buf[..] == old(buf[..])
      ensures r == Ok ==>
        && Holds(Answered(ts))
        && buf[..LENGTH_AT] == ts[FirstTag(ts, RELAY_SID)].body[2..RELAY_LEN] + old(buf[ETH_ALEN..LENGTH_AT])
        && len == old(len)
             - if |ts[FirstTag(ts, RELAY_SID)].body| == RELAY_LEN then TAG_HDR_LEN + RELAY_LEN else RELAY_LEN
    {
      hide EncTags, FirstTag, U16, Answers, Answered;
      r := Err;
      var p := FindTag(RELAY_SID, ts);
      ReplyParts(ts);
      if p >= 0 {
        ghost var k := FirstTag(ts, RELAY_SID);
        var tagLen := U16(buf[p + 2], buf[p + 3]);
        if tagLen >= RELAY_LEN {
          RelayBody(buf[..], TagsLen(), ts, k);
          if buf[p + 4..p + 6] == MAGIC {
            Deliver(p, ts);
            CutRelay(p, tagLen, ts, k);
            r := Ok;
          }
        }
      }
    }

    /** Copy the address behind the magic at `p` to the front of the frame. */
    method Deliver(p: nat, ghost ts: seq<Tag>)
      requires Holds(ts) && TAGS_AT <= p && p + 12 <= TAGS_AT + TagsLen()
      modifies buf
      ensures Holds(ts)
      ensures buf[..LENGTH_AT] == old(buf[p + 6..p + 12]) + old(buf[ETH_ALEN..LENGTH_AT])
    {
      hide EncTags, U16;
      Write(buf, 0, buf[p + 6..p + 12]);
      Readdressed(old(buf[..]), buf[..], old(buf[p + 6..p + 12]), old(TagsLen()));
    }

    /** Take magic and address out of tag `k`, or the whole tag if there is nothing else in it. */
    method CutRelay(p: nat, tagLen: nat, ghost ts: seq<Tag>, ghost k: nat)
      requires Holds(ts) && k < |ts| && ts[k].typ == RELAY_SID && tagLen == |ts[k].body| >= RELAY_LEN
      requires AllFitTags(ts[..k]) && p == TAGS_AT + |EncTags(ts[..k])|
      modifies `len, buf
      ensures var t := Tag(RELAY_SID, ts[k].body[RELAY_LEN..]);
        Holds(ts[..k] + (if tagLen == RELAY_LEN then [] else [t]) + ts[k + 1..])
      ensures buf[..LENGTH_AT] == old(buf[..LENGTH_AT])
      ensures len == old(len) - if tagLen == RELAY_LEN then TAG_HDR_LEN + RELAY_LEN else RELAY_LEN
    {
      hide EncTags, U16, Be16;
      if tagLen > RELAY_LEN {
        CutPart(p, tagLen, ts, k);
      } else {
        CutTag(p, tagLen, ts, k);
        assert ts[..k] + [] + ts[k + 1..] == ts[..k] + ts[k + 1..];
      }
    }

    method CutPart(p: nat, tagLen: nat, ghost ts: seq<Tag>, ghost k: nat)
      requires Holds(ts) && k < |ts| && tagLen == |ts[k].body| > RELAY_LEN
      requires AllFitTags(ts[..k]) && p == TAGS_AT + |EncTags(ts[..k])|
      modifies `len, buf
      ensures Holds(ts[..k] + [Tag(ts[k].typ, ts[k].body[RELAY_LEN..])] + ts[k + 1..])
      ensures buf[..LENGTH_AT] == old(buf[..LENGTH_AT]) && len == old(len) - RELAY_LEN
    {
      hide EncTags, U16, Be16;
      var n := TagsLen();
      ghost var s := buf[TAGS_AT..TAGS_AT + n];
      TagInFrame(buf[..], n, ts, k);
      var ok := CutBytes(p + TAG_HDR_LEN, RELAY_LEN);
      ghost var c := buf[..];
      ShortenTag(s, c[TAGS_AT..TAGS_AT + n - RELAY_LEN], ts, k);
      Write(buf, p + 2, Be16(tagLen - RELAY_LEN));
      Overwritten(c, buf[..], p + 2, Be16(tagLen - RELAY_LEN), n - RELAY_LEN);
    }
  }

  /** A result of a handler: 0, -1, or a copy that runs past the end of the tag buffer, where
      the model stops. */
  datatype Code = Ok | Err | PastBuffer

  function OldSize(ts: seq<Tag>): nat {
    var k := FirstTag(ts, RELAY_SID);
    if k < |ts| then TAG_HDR_LEN + |ts[k].body| else 0
  }

  /** What a host reads from a length stored in network order. */
  function HostOrder(bigEndian: bool, v: nat): nat {
    if bigEndian then v else v % 256 * 256 + v / 256
  }

  lemma LengthInHostOrder(bigEndian: bool, v: u16)
    ensures HostOrder(bigEndian, v) == if bigEndian then U16(v / 256, v % 256) else U16(v % 256, v / 256)
    ensures bigEndian ==> HostOrder(bigEndian, v) == v
    ensures RELAY_LEN <= v < 256 && !bigEndian ==> HostOrder(bigEndian, v) > TAG_BUF
  {
  }

  /** The tag built in the buffer in front of the body kept from the old one. */
  method FillTag(tag: array<u8>, mac: seq<u8>, oldLen: nat)
    requires tag.Length == TAG_BUF && |mac| == ETH_ALEN && TAG_HDR_LEN + RELAY_LEN + oldLen <= TAG_BUF
    modifies tag
    ensures var t := Tag(RELAY_SID, MAGIC + mac + old(tag[TAG_HDR_LEN + RELAY_LEN..TAG_HDR_LEN + RELAY_LEN + oldLen]));
      tag[..TAG_HDR_LEN + RELAY_LEN + oldLen] == EncTag(t)
    ensures tag[2] == (RELAY_LEN + oldLen) / 256 && tag[3] == (RELAY_LEN + oldLen) % 256
  {
    Write(tag, 0, Be16(RELAY_SID) + Be16(RELAY_LEN + oldLen) + MAGIC + mac);
  }

  // --- Bytes moved by the two handlers ------------------------------------------------------------

  /** Tag `k` in a frame `b` whose payload is the list. */
  lemma TagInFrame(b: seq<u8>, n: nat, ts: seq<Tag>, k: nat)
    requires TAGS_AT + n <= |b| && AllFitTags(ts) && b[TAGS_AT..TAGS_AT + n] == EncTags(ts) && k < |ts|
    ensures AllFitTags(ts[..k])
    ensures var p := TAGS_AT + |EncTags(ts[..k])|;
      && p + 4 + |ts[k].body| <= TAGS_AT + n
      && U16(b[p], b[p + 1]) == ts[k].typ && U16(b[p + 2], b[p + 3]) == |ts[k].body|
      && b[p + 4..p + 4 + |ts[k].body|] == ts[k].body
  {
    hide EncTags, U16;
    var s := b[TAGS_AT..TAGS_AT + n];
    TagAt(s, ts, k);
    var q := |EncTags(ts[..k])|;
    assert s[q] == b[TAGS_AT + q] && s[q + 1] == b[TAGS_AT + q + 1];
    assert s[q + 2] == b[TAGS_AT + q + 2] && s[q + 3] == b[TAGS_AT + q + 3];
    SliceSlice(b, TAGS_AT, TAGS_AT + n, q + 4, q + 4 + |ts[k].body|);
  }

  /** Magic and address in tag `k`. */
  lemma RelayBody(b: seq<u8>, n: nat, ts: seq<Tag>, k: nat)
    requires TAGS_AT + n <= |b| && AllFitTags(ts) && b[TAGS_AT..TAGS_AT + n] == EncTags(ts) && k < |ts|
    requires |ts[k].body| >= RELAY_LEN
    ensures AllFitTags(ts[..k])
    ensures var p := TAGS_AT + |EncTags(ts[..k])|;
      p + 12 <= TAGS_AT + n && b[p + 4..p + 6] == ts[k].body[..2] && b[p + 6..p + 12] == ts[k].body[2..RELAY_LEN]
  {
    hide EncTags, U16;
    TagInFrame(b, n, ts, k);
    var p, m := TAGS_AT + |EncTags(ts[..k])|, |ts[k].body|;
    SliceSlice(b, p + 4, p + 4 + m, 0, 2);
    SliceSlice(b, p + 4, p + 4 + m, 2, RELAY_LEN);
  }

  /** The specification functions, case by case. */
  lemma RelayParts(ts: seq<Tag>)
    ensures var k := FirstTag(ts, RELAY_SID);
      if k < |ts| then
        OldBody(ts) == ts[k].body && Others(ts) == ts[..k] + ts[k + 1..] && OldSize(ts) == TAG_HDR_LEN + |ts[k].body|
      else OldBody(ts) == [] && Others(ts) == ts && OldSize(ts) == 0
  {
  }

  lemma ReplyParts(ts: seq<Tag>)
    ensures var k := FirstTag(ts, RELAY_SID);
      && (Answers(ts) <==> k < |ts| && |ts[k].body| >= RELAY_LEN && ts[k].body[..2] == MAGIC)
      && (Answers(ts) ==>
            var t := Tag(RELAY_SID, ts[k].body[RELAY_LEN..]);
            Answered(ts) == ts[..k] + (if |ts[k].body| == RELAY_LEN then [] else [t]) + ts[k + 1..])
  {
  }

  lemma ConcatSlice<T>(x: seq<T>, y: seq<T>, i: nat, j: nat)
    requires i <= |x| <= j <= |x| + |y|
    ensures (x + y)[i..j] == x[i..] + y[..j - |x|]
  {
  }

  /** The cut of `b` to `c` and the change of the length field to `d`. */
  lemma CutAll(b: seq<u8>, c: seq<u8>, d: seq<u8>, len: nat, n: nat, p: nat, m: nat)
    requires TAGS_AT <= p && p + m <= TAGS_AT + n <= len <= |b| == |c| == |d|
    requires c[..len - m] == b[..p] + b[p + m..len]
    requires d[..LENGTH_AT] == c[..LENGTH_AT] && d[TAGS_AT..] == c[TAGS_AT..]
    ensures d[..LENGTH_AT] == b[..LENGTH_AT]
    ensures var s := b[TAGS_AT..TAGS_AT + n];
      d[TAGS_AT..TAGS_AT + (n - m)] == s[..p - TAGS_AT] + s[p - TAGS_AT + m..]
  {
    CutPayload(b, c, len, n, p, m);
    SameHead(c, d, b, n - m);
  }

  /** The payload of a frame from which `m` bytes at `p` were cut. */
  lemma CutPayload(b: seq<u8>, c: seq<u8>, len: nat, n: nat, p: nat, m: nat)
    requires TAGS_AT <= p && p + m <= TAGS_AT + n <= len <= |b| && len - m <= |c|
    requires c[..len - m] == b[..p] + b[p + m..len]
    ensures c[..TAGS_AT] == b[..TAGS_AT]
    ensures var s := b[TAGS_AT..TAGS_AT + n];
      c[TAGS_AT..TAGS_AT + n - m] == s[..p - TAGS_AT] + s[p - TAGS_AT + m..]
  {
    var d := c[..len - m];
    SliceSlice(c, 0, len - m, TAGS_AT, TAGS_AT + n - m);
    SliceSlice(c, 0, len - m, 0, TAGS_AT);
    SliceSlice(b, TAGS_AT, TAGS_AT + n, 0, p - TAGS_AT);
    SliceSlice(b, TAGS_AT, TAGS_AT + n, p - TAGS_AT + m, n);
    ConcatSlice(b[..p], b[p + m..len], TAGS_AT, TAGS_AT + n - m);
    assert b[..p][TAGS_AT..] == b[TAGS_AT..p];
    SliceSlice(b, p + m, len, 0, TAGS_AT + n - m - p);
  }

  /** Rewriting the length field changes neither what is before it nor the tags. */
  lemma SameHead(c: seq<u8>, d: seq<u8>, b: seq<u8>, n: nat)
    requires TAGS_AT + n <= |c| == |d| && TAGS_AT <= |b| && c[..TAGS_AT] == b[..TAGS_AT]
    requires d[..LENGTH_AT] == c[..LENGTH_AT] && d[TAGS_AT..] == c[TAGS_AT..]
    ensures d[..LENGTH_AT] == b[..LENGTH_AT] && d[TAGS_AT..TAGS_AT + n] == c[TAGS_AT..TAGS_AT + n]
  {
    SliceSlice(c, 0, TAGS_AT, 0, LENGTH_AT);
    SliceSlice(b, 0, TAGS_AT, 0, LENGTH_AT);
    SliceSlice(c, TAGS_AT, |c|, 0, n);
    SliceSlice(d, TAGS_AT, |d|, 0, n);
  }

  /** Opening a gap of `m` bytes before the tags and filling it. */
  lemma FilledGap(b: seq<u8>, c: seq<u8>, d: seq<u8>, e: seq<u8>, n: nat, m: nat, v: seq<u8>)
    requires |v| == m && TAGS_AT + m + n <= |b| == |d|
    requires c == b[..TAGS_AT + m] + b[TAGS_AT..TAGS_AT + n] + b[TAGS_AT + m + n..]
    requires d[..LENGTH_AT] == c[..LENGTH_AT] && d[TAGS_AT..] == c[TAGS_AT..]
    requires e == d[..TAGS_AT] + v + d[TAGS_AT + m..]
    ensures |e| == |b| && e[..LENGTH_AT] == b[..LENGTH_AT] && e[LENGTH_AT] == d[LENGTH_AT]
    ensures e[LENGTH_AT + 1] == d[LENGTH_AT + 1]
    ensures e[TAGS_AT..TAGS_AT + m + n] == v + b[TAGS_AT..TAGS_AT + n]
  {
    MovedUp(b, c, n, m);
    ConcatSlice(d[..TAGS_AT] + v, d[TAGS_AT + m..], TAGS_AT, TAGS_AT + m + n);
    assert (d[..TAGS_AT] + v)[TAGS_AT..] == v;
    SliceSlice(c, TAGS_AT, |c|, m, m + n);
    SliceSlice(d, TAGS_AT, |d|, m, m + n);
    SliceSlice(d, TAGS_AT + m, |d|, 0, n);
    assert c[TAGS_AT..] == c[TAGS_AT..|c|] && d[TAGS_AT..] == d[TAGS_AT..|d|];
    assert d[TAGS_AT + m..] == d[TAGS_AT + m..|d|];
  }

  lemma MovedUp(b: seq<u8>, c: seq<u8>, n: nat, m: nat)
    requires TAGS_AT + m + n <= |b| && c == b[..TAGS_AT + m] + b[TAGS_AT..TAGS_AT + n] + b[TAGS_AT + m + n..]
    ensures |c| == |b| && c[..LENGTH_AT] == b[..LENGTH_AT]
    ensures c[TAGS_AT + m..TAGS_AT + m + n] == b[TAGS_AT..TAGS_AT + n]
  {
  }

  lemma Readdressed(b: seq<u8>, d: seq<u8>, mac: seq<u8>, n: nat)
    requires TAGS_AT + n <= |b| && |mac| == ETH_ALEN && d == b[..0] + mac + b[ETH_ALEN..]
    ensures |d| == |b| && d[..LENGTH_AT] == mac + b[ETH_ALEN..LENGTH_AT]
    ensures d[LENGTH_AT] == b[LENGTH_AT] && d[LENGTH_AT + 1] == b[LENGTH_AT + 1]
    ensures d[TAGS_AT..TAGS_AT + n] == b[TAGS_AT..TAGS_AT + n]
  {
  }

  /** Overwriting two bytes among the tags. */
  lemma Overwritten(b: seq<u8>, d: seq<u8>, p: nat, x: seq<u8>, n: nat)
    requires TAGS_AT <= p && p + 2 <= TAGS_AT + n <= |b| && |x| == 2 && d == b[..p] + x + b[p + 2..]
    ensures |d| == |b| && d[..LENGTH_AT] == b[..LENGTH_AT] && d[LENGTH_AT] == b[LENGTH_AT]
    ensures d[LENGTH_AT + 1] == b[LENGTH_AT + 1]
    ensures var c := b[TAGS_AT..TAGS_AT + n];
      d[TAGS_AT..TAGS_AT + n] == c[..p - TAGS_AT] + x + c[p - TAGS_AT + 2..]
  {
    SliceSlice(b, TAGS_AT, TAGS_AT + n, 0, p - TAGS_AT);
    SliceSlice(b, TAGS_AT, TAGS_AT + n, p - TAGS_AT + 2, n);
    assert d[TAGS_AT..TAGS_AT + n] == b[TAGS_AT..p] + x + b[p + 2..TAGS_AT + n];
  }

  /** Cutting tag `k` out of a list's bytes. */
  lemma DropTag(s: seq<u8>, ts: seq<Tag>, k: nat)
    requires AllFitTags(ts) && s == EncTags(ts) && k < |ts|
    ensures AllFitTags(ts[..k]) && AllFitTags(ts[..k] + ts[k + 1..])
    ensures var q := |EncTags(ts[..k])|;
      && q + 4 + |ts[k].body| <= |s|
      && s[..q] + s[q + 4 + |ts[k].body|..] == EncTags(ts[..k] + ts[k + 1..])
  {
    hide EncTags;
    TagAt(s, ts, k);
    SpliceTags(s, ts, k, k + 1, []);
    NoTags([]);
    assert ts[..k] + [] + ts[k + 1..] == ts[..k] + ts[k + 1..];
    var q := |EncTags(ts[..k])|;
    assert s[..q] + [] + s[q + 4 + |ts[k].body|..] == s[..q] + s[q + 4 + |ts[k].body|..];
  }

  /** Cutting the first eight bytes out of the body of tag `k`, the length not yet corrected. */
  lemma ShortenTag(s: seq<u8>, c: seq<u8>, ts: seq<Tag>, k: nat)
    requires AllFitTags(ts) && s == EncTags(ts) && k < |ts| && |ts[k].body| >= RELAY_LEN
    requires AllFitTags(ts[..k]) && |EncTags(ts[..k])| + 12 <= |s|
    requires var q := |EncTags(ts[..k])|;
      c == s[..q + 4] + s[q + 12..]
    ensures var t := Tag(ts[k].typ, ts[k].body[RELAY_LEN..]);
      var q := |EncTags(ts[..k])|;
      && t.Fits() && AllFitTags(ts[..k] + [t] + ts[k + 1..])
      && c[..q + 2] + Be16(|t.body|) + c[q + 4..] == EncTags(ts[..k] + [t] + ts[k + 1..])
  {
    hide EncTags, Be16;
    var t := Tag(ts[k].typ, ts[k].body[RELAY_LEN..]);
    var q := |EncTags(ts[..k])|;
    TagAt(s, ts, k);
    SpliceTags(s, ts, k, k + 1, [t]);
    EncOneTag(t);
    var n := |ts[k].body|;
    TypeBytes(s[q], s[q + 1], t.typ);
    assert s[q..q + 2] == Be16(t.typ);
    SliceSlice(s, q + 4, q + 4 + n, RELAY_LEN, n);
    SliceJoin(s, q + 12, q + 4 + n, |s|);
    assert s[q + 12..] == t.body + s[q + 4 + n..];
    Patched(s, c, q, Be16(|t.body|));
    Assoc(Be16(t.typ) + Be16(|t.body|), t.body, s[q + 4 + n..]);
    Assoc(s[..q], Be16(t.typ), Be16(|t.body|));
    Assoc(s[..q], EncTag(t), s[q + 4 + n..]);
    Assoc(s[..q], Be16(t.typ) + Be16(|t.body|), s[q + 12..]);
  }

  lemma TypeBytes(x: u8, y: u8, v: u16)
    requires U16(x, y) == v
    ensures Be16(v) == [x, y]
  {
  }

  /** Eight bytes cut from behind the length at `q`, and the length replaced. */
  lemma Patched(s: seq<u8>, c: seq<u8>, q: nat, x: seq<u8>)
    requires q + 12 <= |s| && |x| == 2 && c == s[..q + 4] + s[q + 12..]
    ensures c[..q + 2] + x + c[q + 4..] == s[..q] + s[q..q + 2] + x + s[q + 12..]
  {
    assert c[..q + 2] == s[..q] + s[q..q + 2];
    assert c[q + 4..] == s[q + 12..];
  }

  lemma FirstTagIs(ts: seq<Tag>, k: nat, typ: u16)
    requires k <= |ts| && (forall j :: 0 <= j < k ==> ts[j].typ != typ) && (k < |ts| ==> ts[k].typ == typ)
    ensures FirstTag(ts, typ) == k
  {
  }
}
