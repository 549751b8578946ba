/**
  Keep-alive expiry in the soft AP: every two seconds a pass over the associated stations ages
  the silent ones, sends a keep-alive frame to those whose lease has run out, and drops a
  station when such frames go unanswered.
 */
module KeepAlive {

  const TRY_MAX := 3

  /** `wifiSpec` switches dropping off, `active` is `active_keep_alive_check`. */
  datatype Config = Config(lease: nat, active: bool, wifiSpec: bool)

  /** `last` is the sum of data and control frames at the previous pass, `checking` the alive
      check bit of a sleeping station. */
  datatype Sta = Sta(last: nat, expireTo: nat, tryCnt: nat, checking: bool, associated: bool)

  /** What a pass finds: the receive count now, the power state, whether the station is fully
      linked, whether it acknowledges the frame if one is sent, and whether it has answered the
      check for sleeping stations since the previous pass. */
  datatype Seen = Seen(rx: nat, sleeping: bool, linked: bool, acks: bool, answered: bool)

  // --- Specification: one station, one pass ---------------------------------------------------

  predicate News(s: Sta, x: Seen) {
    x.rx != s.last
  }

  /** The station's lease after the pass has looked at its receive count. */
  function Aged(c: Config, s: Sta, x: Seen): Sta {
    var t := s.(last := x.rx, checking := s.checking && !x.answered);
    if News(s, x) || s.expireTo == 0 then t.(expireTo := c.lease, tryCnt := 0) else t.(expireTo := s.expireTo - 1)
  }

  /** And whether it has to be checked; a sleeping one gets another lease first. */
  function Suspect(c: Config, s: Sta, x: Seen): (Sta, bool) {
    if s.expireTo > 0 then (s, false)
    else if c.wifiSpec then (s.(expireTo := c.lease), false)
    else if x.sleeping && !s.checking then (s.(expireTo := c.lease, checking := true), c.active)
    else (s, true)
  }

  function Checked(c: Config, s: Sta, x: Seen): Sta {
    if !x.linked then s
    else if c.active && x.acks then s.(expireTo := c.lease, tryCnt := 0)
    else if c.active && s.tryCnt + 1 <= TRY_MAX then s.(expireTo := 1, tryCnt := s.tryCnt + 1)
    else s.(tryCnt := 0, associated := false)
  }

  function Pass(c: Config, s: Sta, x: Seen): Sta {
    if !s.associated then s
    else
      var (t, check) := Suspect(c, Aged(c, s, x), x);
      if check then Checked(c, t, x) else t
  }

  /** A keep-alive frame is sent to the station in this pass. */
  predicate Sends(c: Config, s: Sta, x: Seen) {
    s.associated && c.active && x.linked && Suspect(c, Aged(c, s, x), x).1
  }

  predicate Fails(c: Config, s: Sta, x: Seen) {
    Sends(c, s, x) && !x.acks
  }

  // --- Runs ---------------------------------------------------------------------------------------

  function After(c: Config, s: Sta, xs: seq<Seen>): Sta {
    if xs == [] then s else Pass(c, After(c, s, xs[..|xs| - 1]), xs[|xs| - 1])
  }

  predicate FailsAt(c: Config, s: Sta, xs: seq<Seen>, k: nat)
    requires k < |xs|
  {
    Fails(c, After(c, s, xs[..k]), xs[k])
  }

  predicate NewsAt(c: Config, s: Sta, xs: seq<Seen>, k: nat)
    requires k < |xs|
  {
    News(After(c, s, xs[..k]), xs[k])
  }

  predicate AckedAt(c: Config, s: Sta, xs: seq<Seen>, k: nat)
    requires k < |xs|
  {
    Sends(c, After(c, s, xs[..k]), xs[k]) && xs[k].acks
  }

  /** The number of failed frames from pass `j` on. */
  function FailedFrom(c: Config, s: Sta, xs: seq<Seen>, j: nat): nat {
    if |xs| <= j then 0
    else FailedFrom(c, s, xs[..|xs| - 1], j) + if FailsAt(c, s, xs, |xs| - 1) then 1 else 0
  }

  /** From pass `j` on: a failed frame at `j` itself, `n` in all, no answer to any, and nothing
      heard from the station in any pass after `j`. */
  ghost predicate Silent(c: Config, s: Sta, xs: seq<Seen>, j: nat, n: nat) {
    && j < |xs| && FailsAt(c, s, xs, j) && FailedFrom(c, s, xs, j) == n
    && (forall k :: j < k < |xs| ==> !NewsAt(c, s, xs, k))
    && (forall k :: j <= k < |xs| ==> !AckedAt(c, s, xs, k))
  }

  lemma SilentNext(c: Config, s: Sta, xs: seq<Seen>, x: Seen, j: nat, n: nat)
    requires Silent(c, s, xs, j, n) && !News(After(c, s, xs), x) && !(Sends(c, After(c, s, xs), x) && x.acks)
    ensures Silent(c, s, xs + [x], j, n + if Fails(c, After(c, s, xs), x) then 1 else 0)
  {
    hide Fails, Sends, News, After;
    var ys := xs + [x];
    assert ys[..|xs|] == xs;
    forall k | 0 <= k < |xs|
      ensures NewsAt(c, s, ys, k) == NewsAt(c, s, xs, k)
      ensures AckedAt(c, s, ys, k) == AckedAt(c, s, xs, k) && FailsAt(c, s, ys, k) == FailsAt(c, s, xs, k)
    {
      assert ys[..k] == xs[..k];
    }
  }

  lemma SilentFirst(c: Config, s: Sta, xs: seq<Seen>, x: Seen)
    requires Fails(c, After(c, s, xs), x)
    ensures Silent(c, s, xs + [x], |xs|, 1)
  {
    hide After;
    var ys := xs + [x];
    assert ys[..|xs|] == xs;
    assert FailedFrom(c, s, xs, |xs|) == 0;
  }

  /** What one pass does to the counter of tries. */
  lemma TryStep(c: Config, s: Sta, x: Seen)
    requires s.associated && c.active && s.tryCnt <= TRY_MAX
    ensures var t := Pass(c, s, x);
      && t.tryCnt <= TRY_MAX
      && (!t.associated ==> Fails(c, s, x) && s.tryCnt == TRY_MAX && !News(s, x))
      && (t.associated && t.tryCnt > 0 ==>
            if News(s, x) || s.tryCnt == 0 || t.tryCnt == 1 then
              (Fails(c, s, x) && t.tryCnt == 1) || (t.tryCnt == s.tryCnt && !News(s, x) && !Sends(c, s, x))
            else !(Sends(c, s, x) && x.acks) && t.tryCnt == s.tryCnt + if Fails(c, s, x) then 1 else 0)
  {
  }

  /** Between passes the counter is at most three, and it counts failed frames without any sign
      of life since the first of them.  A station is dropped only by a fourth one. */
  lemma {:induction false} DroppedOnlyAfterFour(c: Config, s: Sta, xs: seq<Seen>)
    requires s.associated && c.active && s.tryCnt == 0
    ensures var t := After(c, s, xs);
      && t.tryCnt <= TRY_MAX
      && (t.associated && t.tryCnt > 0 ==> exists j :: Silent(c, s, xs, j, t.tryCnt))
    ensures xs != [] && After(c, s, xs[..|xs| - 1]).associated && !After(c, s, xs).associated ==>
      exists j :: Silent(c, s, xs, j, 4)
  {
    hide Silent, Pass, Fails, Sends, News;
    if xs != [] {
      var ps, x := xs[..|xs| - 1], xs[|xs| - 1];
      assert xs == ps + [x];
      DroppedOnlyAfterFour(c, s, ps);
      var u := After(c, s, ps);
      if u.associated {
        TryStep(c, u, x);
        if Fails(c, u, x) {
          SilentFirst(c, s, ps, x);
        }
        if u.tryCnt > 0 {
          var j :| Silent(c, s, ps, j, u.tryCnt);
          if !News(u, x) && !(Sends(c, u, x) && x.acks) {
            SilentNext(c, s, ps, x, j, u.tryCnt);
          }
        }
      } else {
        StaysDropped(c, u, x);
      }
    }
  }

  lemma StaysDropped(c: Config, s: Sta, x: Seen)
    requires !s.associated
    ensures Pass(c, s, x) == s
  {
  }

  /** And four passes in a row that each send a frame in vain, the last three hearing nothing,
      are enough. */
  lemma FourInARowDrop(c: Config, s: Sta, w: Seen, x: Seen, y: Seen, z: Seen)
    requires Fails(c, s, w)
    requires var t := Pass(c, s, w);
      && (t.associated ==> Fails(c, t, x) && !News(t, x))
      && var u := Pass(c, t, x);
         && (u.associated ==> Fails(c, u, y) && !News(u, y))
         && var v := Pass(c, u, y);
            v.associated ==> Fails(c, v, z) && !News(v, z)
    ensures !Pass(c, Pass(c, Pass(c, Pass(c, s, w), x), y), z).associated
  {
    FailCounts(c, s, w);
    var t := Pass(c, s, w);
    if t.associated { FailCounts(c, t, x); } else { StaysDropped(c, t, x); }
    var u := Pass(c, t, x);
    if u.associated { FailCounts(c, u, y); } else { StaysDropped(c, u, y); }
    var v := Pass(c, u, y);
    if v.associated { FailCounts(c, v, z); } else { StaysDropped(c, v, z); }
  }

  lemma FailCounts(c: Config, s: Sta, x: Seen)
    requires Fails(c, s, x)
    ensures var t := Pass(c, s, x);
      && (t.associated ==>
            t.expireTo == 1 && t.tryCnt > 0 && (!News(s, x) && s.expireTo > 0 ==> t.tryCnt == s.tryCnt + 1))
      && (t.associated ==> t.tryCnt <= TRY_MAX)
  {
  }

  // --- The driver's two loops -------------------------------------------------------------------

  /** `expire_timeout_chk` on the associated stations: a first loop ages them and collects those
      to check, a second one checks them. */
  method ExpireTimeoutChk(c: Config, stas: array<Sta>, seen: seq<Seen>)
    requires |seen| == stas.Length
    modifies stas
    ensures forall i :: 0 <= i < stas.Length ==> stas[i] == Pass(c, old(stas[i]), seen[i])
  {
    var chkAlive := AgeAll(c, stas, seen);
    ghost var aged := stas[..];
    for n := 0 to |chkAlive|
      invariant forall i :: 0 <= i < stas.Length ==>
        stas[i] == if i in chkAlive[..n] then Checked(c, aged[i], seen[i]) else aged[i]
    {
      var i := chkAlive[n];
      assert chkAlive[..n + 1] == chkAlive[..n] + [i];
      var s, x := stas[i], seen[i];
      if x.linked {
        var drop := true;
        if c.active {
          s := s.(tryCnt := s.tryCnt + 1);
          if x.acks {
            s := s.(expireTo := c.lease, tryCnt := 0);
            drop := false;
          } else if s.tryCnt <= TRY_MAX {
            s := s.(expireTo := 1);
            drop := false;
          }
        }
        if drop {
          s := s.(tryCnt := 0, associated := false);
        }
        stas[i] := s;
      }
    }
    assert chkAlive[..|chkAlive|] == chkAlive;
  }

  /** The first loop. */
  method AgeAll(c: Config, stas: array<Sta>, seen: seq<Seen>) returns (chkAlive: seq<nat>)
    requires |seen| == stas.Length
    modifies stas
    ensures forall n :: 0 <= n < |chkAlive| ==> chkAlive[n] < stas.Length
    ensures forall m, n :: 0 <= m < n < |chkAlive| ==> chkAlive[m] < chkAlive[n]
    ensures forall i :: 0 <= i < stas.Length ==>
      if old(stas[i]).associated then (stas[i], i in chkAlive) == Suspect(c, Aged(c, old(stas[i]), seen[i]), seen[i])
      else stas[i] == old(stas[i]) && i !in chkAlive
  {
    chkAlive := [];
    for i := 0 to stas.Length
      invariant forall n :: 0 <= n < |chkAlive| ==> chkAlive[n] < i
      invariant forall m, n :: 0 <= m < n < |chkAlive| ==> chkAlive[m] < chkAlive[n]
      invariant forall j :: i <= j < stas.Length ==> stas[j] == old(stas[j])
      invariant forall j :: 0 <= j < i ==>
        if old(stas[j]).associated then (stas[j], j in chkAlive) == Suspect(c, Aged(c, old(stas[j]), seen[j]), seen[j])
        else stas[j] == old(stas[j]) && j !in chkAlive
    {
      if stas[i].associated {
        var s, check := AgeOne(c, stas[i], seen[i]);
        stas[i] := s;
        if check {
          chkAlive := chkAlive + [i];
        }
      }
    }
  }

  method AgeOne(c: Config, sta: Sta, x: Seen) returns (s: Sta, check: bool)
    ensures (s, check) == Suspect(c, Aged(c, sta, x), x)
  {
    var alive := x.rx != sta.last;
    s := sta.(last := x.rx, checking := sta.checking && !x.answered);
    check := false;
    if alive || s.expireTo == 0 {
      s := s.(expireTo := c.lease, tryCnt := 0);
    } else {
      s := s.(expireTo := s.expireTo - 1);
    }
    if s.expireTo == 0 {
      if c.wifiSpec {
        s := s.(expireTo := c.lease);
      } else {
        check := true;
        if x.sleeping && !s.checking {
          s := s.(expireTo := c.lease, checking := true);
          check := c.active;
        }
      }
    }
  }
}
