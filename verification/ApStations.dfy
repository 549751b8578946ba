/**
  What the soft AP derives from the capabilities of its stations: a flag per station and kind,
  a counter per kind, the protection bits of the ERP element (section 8.4.2.14 of IEEE
  802.11-2012) and the HT operation mode (section 8.4.2.59).
 */
module ApStations {

  type Addr = nat

  /** The `*_set` bits of a station, each with a `num_sta_*` counter in the BSS. */
  datatype Flag = NoShortPreamble | NonErp | NoShortSlot | NoHt | NoHtGf | Ht20 | Intolerant40

  type Flags = map<Addr, set<Flag>>

  datatype Option<T> = None | Some(value: T)

  /** What an association request says. */
  datatype Caps = Caps(
    shortPreamble: bool, nonErp: bool, shortSlot: bool,
    ht: bool, greenfield: bool, wide: bool, intolerant: bool)

  /** What does not change while the BSS is up: it is started, ERP is enabled, the interface has
      HT, HT is in use, the AP's own HT capabilities include 40 MHz, the mode is beyond 11b, and
      the beacon is checked for legacy APs (`wifi_spec`). */
  datatype Config = Config(
    started: bool, erpEnabled: bool, htOn: bool, htOption: bool, wide: bool, beyond11b: bool, checked: bool)

  const ERP_PROTECTION: bv8 := 3
  const ERP_BARKER: bv8 := 4
  const OP_MODE_PURE := 0
  const OP_MODE_MAY_BE_LEGACY_STAS := 1
  const OP_MODE_20MHZ_HT_STA_ASSOCED := 2
  const OP_MODE_MIXED := 3

  // --- Counting ---------------------------------------------------------------------------------

  ghost function Having(fs: Flags, f: Flag): set<Addr> {
    set a | a in fs && f in fs[a]
  }

  ghost function Count(fs: Flags, f: Flag): nat {
    |Having(fs, f)|
  }

  function One(b: bool): nat {
    if b then 1 else 0
  }

  /** A change of one station's flags counts for that station alone. */
  lemma CountUpdate(fs: Flags, a: Addr, s: set<Flag>, f: Flag)
    requires a in fs
    ensures Count(fs[a := s], f) == Count(fs, f) - One(f in fs[a]) + One(f in s)
    ensures f in fs[a] ==> Count(fs, f) > 0
  {
    hide Having;
    Split(fs, a, f);
    Split(fs[a := s], a, f);
    OthersSame(fs, a, s, f);
  }

  lemma OthersSame(fs: Flags, a: Addr, s: set<Flag>, f: Flag)
    requires a in fs
    ensures Having(fs[a := s], f) - {a} == Having(fs, f) - {a}
  {
    var gs := fs[a := s];
    forall b | b != a
      ensures b in Having(gs, f) <==> b in Having(fs, f)
    {
      assert b in gs <==> b in fs;
    }
  }

  lemma Split(fs: Flags, a: Addr, f: Flag)
    requires a in fs
    ensures Count(fs, f) == |Having(fs, f) - {a}| + One(f in fs[a])
  {
    var hs := Having(fs, f);
    if a in hs {
      assert hs == (hs - {a}) + {a};
    } else {
      assert hs == hs - {a};
    }
  }

  lemma CountNew(fs: Flags, a: Addr, f: Flag)
    requires a !in fs
    ensures Count(fs[a := {}], f) == Count(fs, f)
  {
    assert Having(fs[a := {}], f) == Having(fs, f);
  }

  // --- Specification: one step ------------------------------------------------------------------

  function With(s: set<Flag>, f: Flag, on: bool): set<Flag> {
    if on then s + {f} else s - {f}
  }

  /** The flags that follow the latest association request. */
  function LegacyFlags(s: set<Flag>, longPreamble: bool, nonErp: bool, longSlot: bool): set<Flag> {
    With(With(With(s, NoShortPreamble, longPreamble), NonErp, nonErp), NoShortSlot, longSlot)
  }

  /** And those an HT interface keeps; the last three are only ever set here. */
  function HtFlags(s: set<Flag>, c: Caps): set<Flag> {
    if !c.ht then s + {NoHt}
    else
      (s - {NoHt}) + (if c.greenfield then {} else {NoHtGf})
      + (if c.wide then {} else {Ht20}) + (if c.intolerant then {Intolerant40} else {})
  }

  /** The flags of a station after it joins or joins again. */
  function Joined(htOn: bool, s: set<Flag>, c: Caps): set<Flag> {
    var ls := LegacyFlags(s, !c.shortPreamble, c.nonErp, !c.shortSlot);
    if htOn then HtFlags(ls, c) else ls
  }

  /** `ht_op_mode`: bits 0-1, bit 2 and bit 4; the other bits are never written. */
  datatype HtMode = HtMode(op: nat, nonGf: bool, nonHt: bool)

  /** The operation mode, as a function of what is associated. */
  function OpMode(noHt: bool, noGf: bool, narrow: bool, olbc: bool): HtMode {
    HtMode(if noHt then OP_MODE_MIXED else if narrow then OP_MODE_20MHZ_HT_STA_ASSOCED
           else if olbc then OP_MODE_MAY_BE_LEGACY_STAS else OP_MODE_PURE,
           noGf, noHt || olbc)
  }

  /** The ERP information byte as the updater writes it. */
  function ErpByte(b: bv8, protect: bool, barker: bool): bv8 {
    (b & 0xF8) | (if protect then ERP_PROTECTION else 0) | (if barker then ERP_BARKER else 0)
  }

  /** The state: flags, the byte of the beacon's ERP element, the operation mode and its copy in
      the beacon's HT operation element, what neighbours and clients reported, the stations with
      a bit in the traffic indication map, and the counter of the beacon check. */
  datatype State = State(
    flags: Flags, erp: Option<bv8>, mode: HtMode, htInfo: Option<HtMode>,
    olbcHt: bool, widthReq: bool, chReported: bool, tim: set<Addr>, count: nat)

  ghost function ErpAfter(c: Config, erp: Option<bv8>, gs: Flags, fs: Flags): Option<bv8> {
    if c.started && c.erpEnabled && erp.Some? && (Count(gs, NonErp) > 0) != (Count(fs, NonErp) > 0) then
      Some(ErpByte(erp.value, Count(fs, NonErp) == 1, Count(fs, NoShortPreamble) > 0))
    else erp
  }

  ghost predicate Crossed(fs: Flags, gs: Flags, f: Flag) {
    (Count(fs, f) > 0) != (Count(gs, f) > 0)
  }

  /** The beacon changes: a counter left zero or came back to it. */
  ghost predicate Refresh(c: Config, fs: Flags, gs: Flags) {
    (c.beyond11b && (Crossed(fs, gs, NoShortPreamble) || Crossed(fs, gs, NoShortSlot))) || Crossed(fs, gs, NonErp)
  }

  ghost function ModeOf(c: Config, fs: Flags, olbcHt: bool): HtMode {
    OpMode(Count(fs, NoHt) > 0, Count(fs, NoHtGf) > 0, c.wide && Count(fs, Ht20) > 0, olbcHt)
  }

  function Copied(c: Config, htInfo: Option<HtMode>, m: HtMode): Option<HtMode> {
    if c.started && c.htOption && htInfo.Some? then Some(m) else htInfo
  }

  ghost function HtAfter(c: Config, s: State): State {
    var m := if c.htOption then ModeOf(c, s.flags, s.olbcHt) else s.mode;
    if m != s.mode then s.(mode := m, htInfo := Copied(c, s.htInfo, m)) else s
  }

  ghost function JoinStep(c: Config, s: State, a: Addr, caps: Caps): State
    requires a in s.flags
  {
    var fs := s.flags[a := Joined(c.htOn, s.flags[a], caps)];
    var t := s.(flags := fs, erp := ErpAfter(c, s.erp, s.flags, fs));
    if c.htOn then HtAfter(c, t) else t
  }

  ghost function LeaveStep(c: Config, s: State, a: Addr): State
    requires a in s.flags
  {
    var fs := s.flags[a := {}];
    HtAfter(c, s.(flags := fs, erp := ErpAfter(c, s.erp, s.flags, fs), tim := s.tim - {a}))
  }

  const CHECK_PERIOD := 10

  predicate Checks(c: Config) {
    c.checked && c.htOn && c.started
  }

  /** The periodic beacon check: every tenth time without a legacy AP, and at once with one,
      whose report it then forgets, the operation mode is updated. */
  ghost function CheckStep(c: Config, s: State): State {
    if !Checks(c) then s
    else
      var t := if s.count % CHECK_PERIOD == 0 then (if s.olbcHt then s else HtAfter(c, s)).(count := 1) else s;
      var u := if t.olbcHt then HtAfter(c, t).(olbcHt := false, count := 0) else t;
      u.(count := u.count + 1)
  }

  /** A 20/40 coexistence frame: `info` is its information byte, if it has the element. */
  function CoexStep(c: Config, s: State, a: Addr, info: Option<bv8>, report: bool): State {
    if a !in s.flags then s
    else
      var intolerant := info.Some? && info.value & 2 != 0;
      var request := info.Some? && info.value & 2 == 0 && info.value & 4 != 0;
      var touched := (intolerant && Intolerant40 !in s.flags[a]) || (request && !s.widthReq)
        || (report && !s.chReported);
      s.(flags := if intolerant then s.flags[a := s.flags[a] + {Intolerant40}] else s.flags,
         widthReq := s.widthReq || request, chReported := s.chReported || report,
         htInfo := if touched then Copied(c, s.htInfo, s.mode) else s.htInfo)
  }

  // --- Specification: runs ------------------------------------------------------------------------

  datatype Event =
    | NewStation(a: Addr)
    | Join(a: Addr, caps: Caps)
    | Leave(a: Addr)
    | Coex(a: Addr, info: Option<bv8>, report: bool)
    | LegacyAp
    | BeaconCheck
    | Buffer(a: Addr)

  ghost function Step(c: Config, s: State, e: Event): State {
    match e
    case NewStation(a) => if a in s.flags then s else s.(flags := s.flags[a := {}])
    case Join(a, caps) => if a in s.flags then JoinStep(c, s, a, caps) else s
    case Leave(a) => if a in s.flags then LeaveStep(c, s, a) else s
    case Coex(a, info, report) => CoexStep(c, s, a, info, report)
    case LegacyAp => s.(olbcHt := true)
    case BeaconCheck => CheckStep(c, s)
    case Buffer(a) => s.(tim := s.tim + {a})
  }

  ghost function Run(c: Config, s: State, es: seq<Event>): State {
    if es == [] then s else Step(c, Run(c, s, es[..|es| - 1]), es[|es| - 1])
  }

  /** The beacon asks for protection exactly if a non-ERP station is associated. */
  ghost predicate ErpOk(s: State) {
    s.erp.Some? && s.erp.value & ERP_PROTECTION == if Count(s.flags, NonErp) > 0 then ERP_PROTECTION else 0
  }

  ghost predicate BarkerOk(s: State) {
    s.erp.Some? && (s.erp.value & ERP_BARKER != 0 <==> Count(s.flags, NoShortPreamble) > 0)
  }

  lemma ErpByteBits(b: bv8, protect: bool, barker: bool)
    ensures ErpByte(b, protect, barker) & ERP_PROTECTION == if protect then ERP_PROTECTION else 0
    ensures ErpByte(b, protect, barker) & ERP_BARKER != 0 <==> barker
  {
  }

  /** Flags of one station changed, and the ERP byte updated if the driver's test says so: the
      counter it compares with one is one exactly when it has just left zero. */
  lemma ErpKept(c: Config, s: State, a: Addr, x: set<Flag>)
    requires c.started && c.erpEnabled && ErpOk(s) && a in s.flags
    ensures ErpOk(s.(flags := s.flags[a := x], erp := ErpAfter(c, s.erp, s.flags, s.flags[a := x])))
    ensures (Count(s.flags, NonErp) > 0) != (Count(s.flags[a := x], NonErp) > 0)
            ==> BarkerOk(s.(flags := s.flags[a := x], erp := ErpAfter(c, s.erp, s.flags, s.flags[a := x])))
  {
    hide ErpByte, Count;
    var fs := s.flags[a := x];
    CountUpdate(s.flags, a, x, NonErp);
    ErpByteBits(s.erp.value, Count(fs, NonErp) == 1, Count(fs, NoShortPreamble) > 0);
  }

  lemma ErpStep(c: Config, s: State, e: Event)
    requires c.started && c.erpEnabled && ErpOk(s)
    ensures ErpOk(Step(c, s, e))
    ensures Crossed(s.flags, Step(c, s, e).flags, NonErp) ==> BarkerOk(Step(c, s, e))
  {
    hide ErpAfter, Count, Joined, ModeOf;
    match e
    case NewStation(a) =>
      if a !in s.flags { CountNew(s.flags, a, NonErp); }
    case Join(a, caps) =>
      if a in s.flags { ErpKept(c, s, a, Joined(c.htOn, s.flags[a], caps)); }
    case Leave(a) =>
      if a in s.flags { ErpKept(c, s, a, {}); }
    case Coex(a, info, report) =>
      if a in s.flags { CountUpdate(s.flags, a, s.flags[a] + {Intolerant40}, NonErp); }
    case LegacyAp =>
    case BeaconCheck =>
    case Buffer(a) =>
  }

  /** Over all runs on a started BSS, the protection bits are right after every step, and the
      Barker bit is right after every step that changes them. */
  lemma {:induction false} ErpOverRuns(c: Config, s: State, es: seq<Event>)
    requires c.started && c.erpEnabled && ErpOk(s)
    ensures ErpOk(Run(c, s, es))
    ensures es != [] && Crossed(Run(c, s, es[..|es| - 1]).flags, Run(c, s, es).flags, NonErp) ==>
      BarkerOk(Run(c, s, es))
  {
    hide Step, ErpOk, Count, BarkerOk;
    if es != [] {
      ErpOverRuns(c, s, es[..|es| - 1]);
      ErpStep(c, Run(c, s, es[..|es| - 1]), es[|es| - 1]);
    }
  }

  /** On a BSS that is not started, or without ERP, the bits never change, so a non-ERP station
      is all it takes to make them wrong. */
  lemma ErpNeedsStart(c: Config, s: State, a: Addr, caps: Caps)
    requires !(c.started && c.erpEnabled) && ErpOk(s) && Count(s.flags, NonErp) == 0 && a in s.flags && caps.nonErp
    ensures !ErpOk(Step(c, s, Join(a, caps)))
  {
    CountUpdate(s.flags, a, Joined(c.htOn, s.flags[a], caps), NonErp);
  }

  predicate BarkerBit(s: State)
    requires s.erp.Some?
  {
    s.erp.value & ERP_BARKER != 0
  }

  ghost predicate ErpCrossed(s: State, t: State) {
    Crossed(s.flags, t.flags, NonErp)
  }

  ghost predicate PreambleCrossed(s: State, t: State) {
    Crossed(s.flags, t.flags, NoShortPreamble)
  }

  /** The Barker bit follows the stations only in steps in which the protection bits change. */
  lemma BitAfterStep(c: Config, s: State, e: Event)
    requires c.started && c.erpEnabled && s.erp.Some?
    ensures var t := Step(c, s, e);
      && t.erp.Some?
      && (ErpCrossed(s, t) ==> BarkerOk(t))
      && (!ErpCrossed(s, t) ==> t.erp == s.erp)
  {
    hide ErpByte, Count, Joined, ModeOf;
    match e
    case NewStation(a) =>
      if a !in s.flags { CountNew(s.flags, a, NonErp); }
    case Join(a, caps) =>
      if a in s.flags { BitAfterChange(c, s, s.flags[a := Joined(c.htOn, s.flags[a], caps)]); }
    case Leave(a) =>
      if a in s.flags { BitAfterChange(c, s, s.flags[a := {}]); }
    case Coex(a, info, report) =>
      if a in s.flags { CountUpdate(s.flags, a, s.flags[a] + {Intolerant40}, NonErp); }
    case LegacyAp =>
    case BeaconCheck =>
    case Buffer(a) =>
  }

  lemma BitAfterChange(c: Config, s: State, fs: Flags)
    requires c.started && c.erpEnabled && s.erp.Some?
    ensures var t := s.(flags := fs, erp := ErpAfter(c, s.erp, s.flags, fs));
      t.erp.Some? && if ErpCrossed(s, t) then BarkerOk(t) else t.erp == s.erp
  {
    hide ErpByte, Count;
    ErpByteBits(s.erp.value, Count(fs, NonErp) == 1, Count(fs, NoShortPreamble) > 0);
  }

  /** Exactly when a step leaves the Barker bit right: if it changes the protection bits, or else
      if the bit was right and the first long-preamble station did not come nor the last one go,
      or the bit was wrong and that is what happened. */
  lemma BarkerStep(c: Config, s: State, e: Event)
    requires c.started && c.erpEnabled && s.erp.Some?
    ensures var t := Step(c, s, e);
      BarkerOk(t) <==> ErpCrossed(s, t) || (BarkerOk(s) <==> !PreambleCrossed(s, t))
  {
    hide Step, Count;
    BitAfterStep(c, s, e);
  }

  /** The length of the run up to the last step that changes the protection bits, or 0. */
  ghost function LastErpChange(c: Config, s: State, es: seq<Event>): (n: nat)
    ensures n <= |es|
  {
    if es == [] then 0
    else if ErpCrossed(Run(c, s, es[..|es| - 1]), Run(c, s, es)) then |es|
    else LastErpChange(c, s, es[..|es| - 1])
  }

  /** Over any run: the bit is right at the end if and only if there are long-preamble stations
      now exactly if there were any when the protection bits last changed; if they never did,
      exactly if the bit said so at the start. */
  lemma {:induction false} BarkerOverRuns(c: Config, s: State, es: seq<Event>)
    requires c.started && c.erpEnabled && s.erp.Some?
    ensures var t, n := Run(c, s, es), LastErpChange(c, s, es);
      && t.erp.Some?
      && (if n == 0 then t.erp == s.erp
          else BarkerBit(t) <==> Count(Run(c, s, es[..n]).flags, NoShortPreamble) > 0)
      && (BarkerOk(t) <==>
            if n == 0 then (BarkerBit(s) <==> Count(t.flags, NoShortPreamble) > 0)
            else !Crossed(Run(c, s, es[..n]).flags, t.flags, NoShortPreamble))
  {
    hide Step, Count;
    if es != [] {
      var ps := es[..|es| - 1];
      BarkerOverRuns(c, s, ps);
      BitAfterStep(c, Run(c, s, ps), es[|es| - 1]);
      assert Run(c, s, es) == Step(c, Run(c, s, ps), es[|es| - 1]);
      var n := LastErpChange(c, s, es);
      if n < |es| {
        assert es[..n] == ps[..n];
      } else {
        assert es[..n] == es;
      }
    }
  }

  /** The flags after a request, one by one. */
  lemma JoinedFlags(htOn: bool, s: set<Flag>, c: Caps)
    ensures var t := Joined(htOn, s, c);
      && (NonErp in t <==> c.nonErp) && (NoShortPreamble in t <==> !c.shortPreamble)
      && (NoShortSlot in t <==> !c.shortSlot)
      && (NoHt in t <==> if htOn then !c.ht else NoHt in s)
      && (NoHtGf in t <==> NoHtGf in s || (htOn && c.ht && !c.greenfield))
      && (Ht20 in t <==> Ht20 in s || (htOn && c.ht && !c.wide))
      && (Intolerant40 in t <==> Intolerant40 in s || (htOn && c.ht && c.intolerant))
  {
  }

  /** So a first long-preamble station that supports ERP makes a right bit wrong. */
  lemma BarkerGoesStale(c: Config, s: State, a: Addr, caps: Caps)
    requires a in s.flags && NonErp !in s.flags[a] && !caps.nonErp && BarkerOk(s)
    requires Count(s.flags, NoShortPreamble) == 0 && !caps.shortPreamble
    ensures !BarkerOk(Step(c, s, Join(a, caps)))
  {
    hide ErpByte, Count, ModeOf, Joined;
    JoinedFlags(c.htOn, s.flags[a], caps);
    var x := Joined(c.htOn, s.flags[a], caps);
    CountUpdate(s.flags, a, x, NonErp);
    CountUpdate(s.flags, a, x, NoShortPreamble);
  }

  /** The operation mode is the function of the counters, and the beacon shows it. */
  ghost predicate ModeOk(c: Config, s: State) {
    s.mode == ModeOf(c, s.flags, s.olbcHt)
  }

  predicate BeaconShowsMode(s: State) {
    s.htInfo == Some(s.mode)
  }

  lemma LegacyKeepsHt(s: set<Flag>, p: bool, n: bool, t: bool)
    ensures forall f :: f in [NoHt, NoHtGf, Ht20] ==> (f in LegacyFlags(s, p, n, t) <==> f in s)
  {
  }

  /** The legacy AP report that a step computes the mode with, if it computes it; a beacon check
      that finds one forgets it right after. */
  function Used(c: Config, s: State, e: Event): Option<bool> {
    match e
    case Join(a, _) => if c.htOn && a in s.flags then Some(s.olbcHt) else None
    case Leave(a) => if a in s.flags then Some(s.olbcHt) else None
    case BeaconCheck => if Checks(c) && (s.olbcHt || s.count % CHECK_PERIOD == 0) then Some(s.olbcHt) else None
    case _ => None
  }

  /** The mode that the stations call for is the same before and after. */
  ghost predicate SameCall(c: Config, s: State, t: State) {
    forall o :: ModeOf(c, t.flags, o) == ModeOf(c, s.flags, o)
  }

  /** A step that does not compute the mode leaves what the stations call for alone. */
  lemma CallKept(c: Config, s: State, e: Event)
    requires Used(c, s, e).None?
    ensures SameCall(c, s, Step(c, s, e))
  {
    hide ErpAfter, Count, LegacyFlags, HtAfter;
    match e
    case NewStation(a) =>
      if a !in s.flags { forall f { CountNew(s.flags, a, f); } }
    case Join(a, caps) =>
      if a in s.flags {
        LegacyKeepsHt(s.flags[a], !caps.shortPreamble, caps.nonErp, !caps.shortSlot);
        forall f { CountUpdate(s.flags, a, Joined(c.htOn, s.flags[a], caps), f); }
      }
    case Leave(a) =>
    case Coex(a, info, report) =>
      if a in s.flags { forall f { CountUpdate(s.flags, a, s.flags[a] + {Intolerant40}, f); } }
    case LegacyAp =>
    case BeaconCheck =>
    case Buffer(a) =>
  }

  /** A step that computes the mode computes it for the stations it leaves; any other leaves both
      the mode and what the stations call for alone. */
  lemma ModeStep(c: Config, s: State, e: Event)
    requires c.htOption
    ensures var t, u := Step(c, s, e), Used(c, s, e);
      if u.Some? then t.mode == ModeOf(c, t.flags, u.value) else t.mode == s.mode && SameCall(c, s, t)
    ensures c.started && BeaconShowsMode(s) ==> BeaconShowsMode(Step(c, s, e))
  {
    hide ErpAfter, Joined, ModeOf, SameCall;
    if Used(c, s, e).None? {
      CallKept(c, s, e);
    }
  }

  /** The report matters to the mode exactly if no non-HT station is associated. */
  lemma ReportMatters(c: Config, fs: Flags, o: bool, p: bool)
    ensures ModeOf(c, fs, o) == ModeOf(c, fs, p) <==> o == p || Count(fs, NoHt) > 0
  {
    hide Count;
  }

  /** The report that the last step of a run to compute the mode computed it with. */
  ghost function LastUsed(c: Config, s: State, es: seq<Event>): Option<bool> {
    if es == [] then None
    else
      var ps := es[..|es| - 1];
      var u := Used(c, Run(c, s, ps), es[|es| - 1]);
      if u.Some? then u else LastUsed(c, s, ps)
  }

  /** What the mode is at the end of any run. */
  lemma {:induction false} ModeIs(c: Config, s: State, es: seq<Event>)
    requires c.htOption
    ensures var t, u := Run(c, s, es), LastUsed(c, s, es);
      if u.Some? then t.mode == ModeOf(c, t.flags, u.value) else t.mode == s.mode && SameCall(c, s, t)
    ensures c.started && BeaconShowsMode(s) ==> BeaconShowsMode(Run(c, s, es))
  {
    hide Step, ModeOf, BeaconShowsMode, Used;
    if es != [] {
      var ps := es[..|es| - 1];
      ModeIs(c, s, ps);
      ModeStep(c, Run(c, s, ps), es[|es| - 1]);
    }
  }

  /** Exactly when the mode is the function of the counters and `olbcHt` at the end of a run: if
      the report it was last computed with is the present one, or a non-HT station is associated,
      which decides the mode alone; if it was never computed, if it was right for the present
      report at the start. */
  lemma ModeRightIff(c: Config, s: State, es: seq<Event>)
    requires c.htOption
    ensures var t, u := Run(c, s, es), LastUsed(c, s, es);
      ModeOk(c, t) <==>
        if u.Some? then u.value == t.olbcHt || Count(t.flags, NoHt) > 0 else s.mode == ModeOf(c, s.flags, t.olbcHt)
  {
    hide Count, ModeOf, LastUsed, Run;
    ModeIs(c, s, es);
    var t, u := Run(c, s, es), LastUsed(c, s, es);
    if u.Some? {
      ReportMatters(c, t.flags, u.value, t.olbcHt);
    }
  }

  /** So it stays right while the report does not change. */
  lemma ModeOverRuns(c: Config, s: State, es: seq<Event>)
    requires c.htOption
    ensures ModeOk(c, s) && (forall k :: 0 <= k <= |es| ==> Run(c, s, es[..k]).olbcHt == s.olbcHt)
      ==> ModeOk(c, Run(c, s, es))
    ensures c.started && BeaconShowsMode(s) ==> BeaconShowsMode(Run(c, s, es))
  {
    hide Count, ModeOf, LastUsed, Run, BeaconShowsMode;
    ModeRightIff(c, s, es);
    ModeIs(c, s, es);
    if forall k :: 0 <= k <= |es| ==> Run(c, s, es[..k]).olbcHt == s.olbcHt {
      assert es[..|es|] == es;
      LastUsedIsNow(c, s, es);
    }
  }

  lemma {:induction false} LastUsedIsNow(c: Config, s: State, es: seq<Event>)
    requires forall k :: 0 <= k <= |es| ==> Run(c, s, es[..k]).olbcHt == s.olbcHt
    ensures LastUsed(c, s, es) != Some(!s.olbcHt)
  {
    hide Run;
    if es != [] {
      var ps := es[..|es| - 1];
      assert forall k :: 0 <= k <= |ps| ==> ps[..k] == es[..k];
      assert ps[..|ps|] == ps;
      LastUsedIsNow(c, s, ps);
    }
  }

  /** A run of one event. */
  lemma RunOne(c: Config, s: State, e: Event)
    ensures Run(c, s, [e]) == Step(c, s, e) && LastUsed(c, s, [e]) == Used(c, s, e)
  {
    hide Step, Used;
    assert [e][..0] == [];
  }

  /** An HT join, a leave, or a tenth check without a legacy AP makes the mode right whatever
      happened before; a check with a legacy AP, which then forgets it, exactly if a non-HT station
      is associated. */
  lemma ModeAfterUpdate(c: Config, s: State, e: Event)
    requires c.htOption && Used(c, s, e).Some?
    ensures ModeOk(c, Step(c, s, e)) <==> !(e.BeaconCheck? && s.olbcHt) || Count(s.flags, NoHt) > 0
  {
    hide Count, ModeOf, LastUsed, Run, ErpAfter, Joined;
    RunOne(c, s, e);
    ModeRightIff(c, s, [e]);
  }

  /** A legacy AP that is noticed, or forgotten again by the beacon check, leaves a right mode right
      exactly if a non-HT station is associated. */
  lemma ModeAfterOlbcChange(c: Config, s: State, e: Event)
    requires c.htOption && ModeOk(c, s) && Step(c, s, e).olbcHt != s.olbcHt
    ensures ModeOk(c, Step(c, s, e)) <==> Count(s.flags, NoHt) > 0
  {
    hide Count, ModeOf, LastUsed, Run, ErpAfter, Joined;
    RunOne(c, s, e);
    ModeRightIff(c, s, [e]);
    ReportMatters(c, s.flags, s.olbcHt, !s.olbcHt);
  }

  /** A second report can make a wrong mode right without computing it: a first report, the check
      that forgets it and a second one, with no non-HT station. */
  lemma SecondReport(c: Config, s: State)
    requires c.htOption && Checks(c) && ModeOk(c, s) && !s.olbcHt && Count(s.flags, NoHt) == 0
    ensures !ModeOk(c, Run(c, s, [LegacyAp]))
    ensures !ModeOk(c, Run(c, s, [LegacyAp, BeaconCheck]))
    ensures ModeOk(c, Run(c, s, [LegacyAp, BeaconCheck, LegacyAp]))
  {
    hide Count, ModeOf;
    ReportMatters(c, s.flags, false, true);
    assert [LegacyAp][..0] == [] && [LegacyAp, BeaconCheck][..1] == [LegacyAp];
    assert [LegacyAp, BeaconCheck, LegacyAp][..2] == [LegacyAp, BeaconCheck];
    var s1 := Step(c, s, LegacyAp);
    var s2 := Step(c, s1, BeaconCheck);
    assert Run(c, s, []) == s;
    assert Run(c, s, [LegacyAp]) == s1;
    assert Run(c, s, [LegacyAp, BeaconCheck]) == s2;
    assert Run(c, s, [LegacyAp, BeaconCheck, LegacyAp]) == Step(c, s2, LegacyAp);
  }

  function NumChecks(es: seq<Event>): nat {
    if es == [] then 0 else NumChecks(es[..|es| - 1]) + if es[|es| - 1].BeaconCheck? then 1 else 0
  }

  /** Without a legacy AP, ten beacon checks are enough to make the mode right again, whatever
      joins, leaves or is buffered in between. */
  lemma {:induction false} SettlesAfterTenChecks(c: Config, s: State, es: seq<Event>)
    requires c.htOption && Checks(c) && 1 <= s.count <= CHECK_PERIOD && !s.olbcHt
    requires forall e :: e in es ==> !e.LegacyAp?
    ensures var t := Run(c, s, es);
      && !t.olbcHt && 1 <= t.count <= CHECK_PERIOD
      && (ModeOk(c, t) || t.count == s.count + NumChecks(es))
    ensures NumChecks(es) >= CHECK_PERIOD ==> ModeOk(c, Run(c, s, es))
  {
    hide ModeOf, Count, ErpAfter, Joined, Step;
    if es != [] {
      var ps, e := es[..|es| - 1], es[|es| - 1];
      assert es == ps + [e];
      SettlesAfterTenChecks(c, s, ps);
      CountStep(c, Run(c, s, ps), e);
      ModeStep(c, Run(c, s, ps), e);
    }
  }

  lemma CountStep(c: Config, s: State, e: Event)
    requires Checks(c) && 1 <= s.count <= CHECK_PERIOD && !s.olbcHt && !e.LegacyAp?
    ensures var t := Step(c, s, e);
      && !t.olbcHt && 1 <= t.count <= CHECK_PERIOD
      && (t.count == (if e.BeaconCheck? then s.count + 1 else s.count) || (e.BeaconCheck? && s.count == CHECK_PERIOD))
  {
    hide ModeOf, ErpAfter, Joined;
  }

  /** The flags of a station that has joined with `cs`, one request after the other. */
  function History(htOn: bool, cs: seq<Caps>): set<Flag> {
    if cs == [] then {} else Joined(htOn, History(htOn, cs[..|cs| - 1]), cs[|cs| - 1])
  }

  /** Four flags follow the latest request; the other three remember any request. */
  lemma {:induction false} WhatFlagsMean(htOn: bool, cs: seq<Caps>)
    requires cs != []
    ensures var c := cs[|cs| - 1];
      var s := History(htOn, cs);
      && (NoShortPreamble in s <==> !c.shortPreamble) && (NonErp in s <==> c.nonErp)
      && (NoShortSlot in s <==> !c.shortSlot)
      && (NoHt in s <==> htOn && !c.ht)
      && (NoHtGf in s <==> htOn && exists d :: d in cs && d.ht && !d.greenfield)
      && (Ht20 in s <==> htOn && exists d :: d in cs && d.ht && !d.wide)
      && (Intolerant40 in s <==> htOn && exists d :: d in cs && d.ht && d.intolerant)
  {
    hide Joined;
    var ps, c := cs[..|cs| - 1], cs[|cs| - 1];
    assert cs == ps + [c];
    JoinedFlags(htOn, History(htOn, ps), c);
    if ps != [] {
      WhatFlagsMean(htOn, ps);
    }
  }

  // --- The driver's structures --------------------------------------------------------------------

  class Bss {
    const cfg: Config
    var flags: Flags
    var num: map<Flag, int>
    var erp: Option<bv8>
    var mode: HtMode
    var htInfo: Option<HtMode>
    var olbcHt: bool
    var widthReq: bool
    var chReported: bool
    var tim: set<Addr>
    var count: nat

    constructor (cfg: Config, erp: Option<bv8>, htInfo: Option<HtMode>)
      ensures Valid() && this.cfg == cfg
      ensures Abstract() == State(map[], erp, HtMode(0, false, false), htInfo, false, false, false, {}, 1)
    {
      this.cfg, this.erp, this.htInfo := cfg, erp, htInfo;
      flags, mode, olbcHt, widthReq, chReported := map[], HtMode(0, false, false), false, false, false;
      tim, count := {}, 1;
      num := map[NoShortPreamble := 0, NonErp := 0, NoShortSlot := 0, NoHt := 0,
                 NoHtGf := 0, Ht20 := 0, Intolerant40 := 0];
      new;
      forall f: Flag ensures f in num && num[f] == Count(flags, f) {
        assert Having(flags, f) == {};
        match f
        case NoShortPreamble => case NonErp => case NoShortSlot =>
        case NoHt => case NoHtGf => case Ht20 => case Intolerant40 =>
      }
    }

    /** Every counter is the number of stations with its flag. */
    ghost predicate Valid()
      reads this
    {
      forall f: Flag :: f in num && num[f] == Count(flags, f)
    }

    ghost function Abstract(): State
      reads this
    {
      State(flags, erp, mode, htInfo, olbcHt, widthReq, chReported, tim, count)
    }

    /** A new station entry. */
    method Alloc(a: Addr)
      requires Valid() && a !in flags
      modifies `flags
      ensures Valid() && flags == old(flags)[a := {}]
    {
      forall f: Flag { CountNew(flags, a, f); }
      flags := flags[a := {}];
    }

    /** Set a flag that is clear, and count. */
    method Raise(a: Addr, f: Flag)
      requires Valid() && a in flags && f !in flags[a]
      modifies `flags, `num
      ensures Valid() && flags == old(flags)[a := old(flags)[a] + {f}]
    {
      forall g: Flag { CountUpdate(flags, a, flags[a] + {f}, g); }
      flags := flags[a := flags[a] + {f}];
      num := num[f := num[f] + 1];
    }

    /** Clear a flag that is set, and count. */
    method Lower(a: Addr, f: Flag)
      requires Valid() && a in flags && f in flags[a]
      modifies `flags, `num
      ensures Valid() && flags == old(flags)[a := old(flags)[a] - {f}]
    {
      forall g: Flag { CountUpdate(flags, a, flags[a] - {f}, g); }
      flags := flags[a := flags[a] - {f}];
      num := num[f := num[f] - 1];
    }

    /** The pattern for the three flags that follow the latest request: the result says that
        the counter left zero or came back to it. */
    method Follow(a: Addr, f: Flag, on: bool) returns (edge: bool)
      requires Valid() && a in flags
      modifies `flags, `num
      ensures Valid() && flags == old(flags)[a := With(old(flags)[a], f, on)]
      ensures edge <==> (Count(old(flags), f) > 0) != (Count(flags, f) > 0)
    {
      hide Count;
      edge := false;
      ghost var before := flags;
      CountUpdate(flags, a, With(flags[a], f, on), f);
      if on {
        if f !in flags[a] {
          Raise(a, f);
          edge := num[f] == 1;
        } else {
          assert flags[a] + {f} == flags[a] && before == before[a := before[a]];
        }
      } else {
        if f in flags[a] {
          Lower(a, f);
          edge := num[f] == 0;
        } else {
          assert flags[a] - {f} == flags[a] && before == before[a := before[a]];
        }
      }
    }

    /** `update_beacon(_ERPINFO_IE_)`. */
    method UpdateErp()
      requires Valid()
      modifies `erp
      ensures erp == if cfg.started && cfg.erpEnabled && old(erp).Some?
                     then Some(ErpByte(old(erp).value, Count(flags, NonErp) == 1, Count(flags, NoShortPreamble) > 0))
                     else old(erp)
    {
      if cfg.started && cfg.erpEnabled && erp.Some? {
        var b := erp.value;
        b := if num[NonErp] == 1 then b | ERP_PROTECTION else b & !ERP_PROTECTION;
        b := if num[NoShortPreamble] > 0 then b | ERP_BARKER else b & !ERP_BARKER;
        erp := Some(b);
      }
    }

    /** `update_beacon(_HT_ADD_INFO_IE_)`, as far as the operation mode goes. */
    method UpdateHtInfo()
      modifies `htInfo
      ensures htInfo == Copied(cfg, old(htInfo), mode)
    {
      if cfg.started && cfg.htOption && htInfo.Some? {
        htInfo := Some(mode);
      }
    }

    /** `rtw_ht_operation_update`: the result counts the parts of the mode that changed. */
    method HtOperationUpdate() returns (changes: nat)
      requires Valid()
      modifies `mode
      ensures mode == if cfg.htOption then ModeOf(cfg, flags, olbcHt) else old(mode)
      ensures changes == One(mode.nonGf != old(mode).nonGf) + One(mode.nonHt != old(mode).nonHt)
        + One(mode.op != old(mode).op)
      ensures changes == 0 <==> !cfg.htOption || old(mode) == ModeOf(cfg, flags, olbcHt)
    {
      changes := 0;
      if cfg.htOption {
        if !mode.nonGf && num[NoHtGf] != 0 {
          mode := mode.(nonGf := true);
          changes := changes + 1;
        } else if mode.nonGf && num[NoHtGf] == 0 {
          mode := mode.(nonGf := false);
          changes := changes + 1;
        }
        if !mode.nonHt && (num[NoHt] != 0 || olbcHt) {
          mode := mode.(nonHt := true);
          changes := changes + 1;
        } else if mode.nonHt && num[NoHt] == 0 && !olbcHt {
          mode := mode.(nonHt := false);
          changes := changes + 1;
        }
        var newMode :=
          if num[NoHt] != 0 then OP_MODE_MIXED
          else if cfg.wide && num[Ht20] != 0 then OP_MODE_20MHZ_HT_STA_ASSOCED
          else if olbcHt then OP_MODE_MAY_BE_LEGACY_STAS
          else OP_MODE_PURE;
        if mode.op != newMode {
          mode := mode.(op := newMode);
          changes := changes + 1;
        }
      }
    }

    /** The tail of the two steps below: `rtw_ht_operation_update` and, on a change, the beacon. */
    method HtTail() returns (changed: bool)
      requires Valid()
      modifies `mode, `htInfo
      ensures Abstract() == HtAfter(cfg, old(Abstract())) && (changed <==> mode != old(mode))
    {
      var changes := HtOperationUpdate();
      changed := changes > 0;
      if changed {
        UpdateHtInfo();
      }
    }

    /** `bss_cap_update_on_sta_join`; the result says that the beacon is to be sent anew. */
    method Join(a: Addr, caps: Caps) returns (updated: bool)
      requires Valid() && a in flags
      modifies `flags, `num, `erp, `mode, `htInfo
      ensures Valid() && Abstract() == JoinStep(cfg, old(Abstract()), a, caps)
      ensures updated <==> Refresh(cfg, old(flags), flags) || (cfg.htOn && mode != old(mode))
    {
      hide ErpAfter, HtAfter, Refresh, LegacyFlags, HtFlags, Count;
      ghost var s := Abstract();
      updated := LegacyPart(a, !caps.shortPreamble, caps.nonErp, !caps.shortSlot);
      if cfg.htOn {
        ghost var ls := flags[a];
        JoinHt(a, caps);
        HtKeeps(ls, caps);
        ErpSame(cfg, s, a, ls, flags[a]);
        SetTwice(s.flags, a, ls, flags[a]);
        var changed := HtTail();
        updated := updated || changed;
      }
    }

    /** Any run of events. */
    method Replay(es: seq<Event>)
      requires Valid()
      modifies this
      ensures Valid() && Abstract() == Run(cfg, old(Abstract()), es)
    {
      hide JoinStep, LeaveStep, CoexStep, CheckStep, Count;
      var i := 0;
      while i < |es|
        invariant i <= |es| && Valid() && Abstract() == Run(cfg, old(Abstract()), es[..i])
      {
        assert es[..i + 1][..i] == es[..i];
        match es[i] {
          case NewStation(a) => if a !in flags { Alloc(a); }
          case Join(a, caps) => if a in flags { var _ := Join(a, caps); }
          case Leave(a) => if a in flags { var _, _ := Leave(a); }
          case Coex(a, info, report) => BssCoex(a, info, report);
          case LegacyAp => olbcHt := true;
          case BeaconCheck => BeaconCheck();
          case Buffer(a) => tim := tim + {a};
        }
        i := i + 1;
      }
      assert es[..i] == es;
    }

    /** What the two steps do about preamble, ERP and slot time. */
    method LegacyPart(a: Addr, longPreamble: bool, nonErp: bool, longSlot: bool) returns (updated: bool)
      requires Valid() && a in flags
      modifies `flags, `num, `erp
      ensures Valid() && flags == old(flags)[a := LegacyFlags(old(flags)[a], longPreamble, nonErp, longSlot)]
      ensures erp == ErpAfter(cfg, old(erp), old(flags), flags) && (updated <==> Refresh(cfg, old(flags), flags))
    {
      hide ErpByte, Count, With;
      ghost var f0 := flags;
      var edge := Follow(a, NoShortPreamble, longPreamble);
      updated := edge && cfg.beyond11b;
      ghost var f1 := flags;
      edge := Follow(a, NonErp, nonErp);
      ghost var f2 := flags;
      if edge {
        updated := true;
        UpdateErp();
      }
      edge := Follow(a, NoShortSlot, longSlot);
      updated := updated || (edge && cfg.beyond11b);
      SameCount(f0, a, NonErp, NoShortPreamble, longPreamble);
      SameCount(f0, a, NoShortSlot, NoShortPreamble, longPreamble);
      SameCount(f1, a, NoShortPreamble, NonErp, nonErp);
      SameCount(f1, a, NoShortSlot, NonErp, nonErp);
      SameCount(f2, a, NonErp, NoShortSlot, longSlot);
      SameCount(f2, a, NoShortPreamble, NoShortSlot, longSlot);
      SetTwice(f0, a, f1[a], f2[a]);
      SetTwice(f0, a, f2[a], flags[a]);
    }

    method JoinHt(a: Addr, caps: Caps)
      requires Valid() && a in flags
      modifies `flags, `num
      ensures Valid() && flags == old(flags)[a := HtFlags(old(flags)[a], caps)]
    {
      hide Count;
      ghost var before := flags;
      if caps.ht {
        if NoHt in flags[a] { Lower(a, NoHt); }
        if !caps.greenfield && NoHtGf !in flags[a] { Raise(a, NoHtGf); }
        if !caps.wide && Ht20 !in flags[a] { Raise(a, Ht20); }
        if caps.intolerant && Intolerant40 !in flags[a] { Raise(a, Intolerant40); }
      } else {
        if NoHt !in flags[a] { Raise(a, NoHt); }
      }
      assert flags[a] == HtFlags(before[a], caps);
      assert flags == before[a := flags[a]];
    }

    /** `bss_cap_update_on_sta_leave`; `warned` is its warning about a counter that is zero. */
    method Leave(a: Addr) returns (updated: bool, warned: bool)
      requires Valid() && a in flags
      modifies `flags, `num, `erp, `mode, `htInfo, `tim
      ensures Valid() && Abstract() == LeaveStep(cfg, old(Abstract()), a)
      ensures !warned && (updated <==> a in old(tim) || Refresh(cfg, old(flags), flags))
    {
      hide ErpAfter, HtAfter, Refresh, LegacyFlags, Count;
      ghost var s := Abstract();
      var buffered := a in tim;
      tim := tim - {a};
      updated := LegacyPart(a, false, false, false);
      updated := updated || buffered;
      ghost var t := flags;
      Cleared(s.flags[a]);
      warned := LeaveHt(a);
      ErpSame(cfg, s, a, t[a], {});
      SetTwice(s.flags, a, t[a], {});
      var changed := HtTail();
    }

    /** `dynamic_update_bcn_check`. */
    method BeaconCheck()
      requires Valid()
      modifies `mode, `htInfo, `olbcHt, `count
      ensures Valid() && Abstract() == CheckStep(cfg, old(Abstract()))
    {
      hide HtAfter, Count;
      if cfg.checked && cfg.htOn && cfg.started {
        if count % CHECK_PERIOD == 0 {
          if !olbcHt {
            var _ := HtTail();
          }
          count := 1;
        }
        if olbcHt {
          var _ := HtTail();
          olbcHt := false;
          count := 0;
        }
        count := count + 1;
      }
    }

    method LeaveHt(a: Addr) returns (warned: bool)
      requires Valid() && a in flags && NoShortPreamble !in flags[a] && NonErp !in flags[a] && NoShortSlot !in flags[a]
      modifies `flags, `num
      ensures Valid() && flags == old(flags)[a := {}] && !warned
    {
      hide Count;
      warned := false;
      ghost var before := flags;
      if NoHtGf in flags[a] { Lower(a, NoHtGf); }
      if NoHt in flags[a] { Lower(a, NoHt); }
      if Ht20 in flags[a] { Lower(a, Ht20); }
      if Intolerant40 in flags[a] {
        CountUpdate(flags, a, {}, Intolerant40);
        if num[Intolerant40] > 0 {
          Lower(a, Intolerant40);
        } else {
          warned := true;
        }
      }
      forall f | f in flags[a] ensures false {
        match f
        case NoShortPreamble => case NonErp => case NoShortSlot =>
        case NoHt => case NoHtGf => case Ht20 => case Intolerant40 =>
      }
      assert flags[a] == {} && flags == before[a := {}];
    }

    /** `rtw_process_public_act_bsscoex`. */
    method BssCoex(a: Addr, info: Option<bv8>, report: bool)
      requires Valid()
      modifies `flags, `num, `htInfo, `widthReq, `chReported
      ensures Valid() && Abstract() == CoexStep(cfg, old(Abstract()), a, info, report)
    {
      hide Count;
      if a in flags {
        var updated := false;
        ghost var before := flags;
        assert before == before[a := before[a]];
        if info.Some? {
          if info.value & 2 != 0 {
            if Intolerant40 !in flags[a] {
              Raise(a, Intolerant40);
              updated := true;
            } else {
              assert before[a] + {Intolerant40} == before[a];
            }
          } else if info.value & 4 != 0 {
            if !widthReq {
              widthReq := true;
              updated := true;
            }
          } else {
            updated := false;
          }
        }
        if report && !chReported {
          chReported := true;
          updated := true;
        }
        if updated {
          UpdateHtInfo();
        }
      }
    }
  }

  lemma SetTwice(fs: Flags, a: Addr, x: set<Flag>, y: set<Flag>)
    ensures fs[a := x][a := y] == fs[a := y]
  {
  }

  lemma HtKeeps(s: set<Flag>, c: Caps)
    ensures NonErp in HtFlags(s, c) <==> NonErp in s
    ensures NoShortPreamble in HtFlags(s, c) <==> NoShortPreamble in s
    ensures NoShortSlot in HtFlags(s, c) <==> NoShortSlot in s
  {
  }

  lemma Cleared(s: set<Flag>)
    ensures var ls := LegacyFlags(s, false, false, false);
      ls == s - {NoShortPreamble, NonErp, NoShortSlot}
  {
  }

  /** Changing one flag leaves the other counters alone. */
  lemma SameCount(fs: Flags, a: Addr, f: Flag, g: Flag, on: bool)
    requires a in fs && f != g
    ensures Count(fs[a := With(fs[a], g, on)], f) == Count(fs, f)
  {
    hide Count;
    CountUpdate(fs, a, With(fs[a], g, on), f);
  }

  /** The ERP byte and the need for a new beacon depend on three flags. */
  lemma ErpSame(c: Config, s: State, a: Addr, x: set<Flag>, y: set<Flag>)
    requires a in s.flags && forall f :: f in [NonErp, NoShortPreamble, NoShortSlot] ==> (f in x <==> f in y)
    ensures ErpAfter(c, s.erp, s.flags, s.flags[a := x]) == ErpAfter(c, s.erp, s.flags, s.flags[a := y])
    ensures Refresh(c, s.flags, s.flags[a := x]) == Refresh(c, s.flags, s.flags[a := y])
  {
    hide ErpByte, Count;
    CountUpdate(s.flags, a, x, NonErp);
    CountUpdate(s.flags, a, x, NoShortPreamble);
    CountUpdate(s.flags, a, y, NonErp);
    CountUpdate(s.flags, a, y, NoShortPreamble);
    CountUpdate(s.flags, a, x, NoShortSlot);
    CountUpdate(s.flags, a, y, NoShortSlot);
  }
}
