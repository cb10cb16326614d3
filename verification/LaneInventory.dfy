/** What a tag read may put into a lane of the driver's inventory. */
module LaneInventory {
  import opened Wrappers
  import opened Text

  /** A number as the protocol delivers it: the plausibility checks look at integers only. */
  datatype Number = Int(n: int) | Float(x: real) {
    function Value(): real { if Int? then n as real else x }
  }

  datatype Range = Range(min: Option<Number>, max: Option<Number>)

  datatype Status = Empty | Ready | Other

  datatype Lane = Lane(status: Status, rfid: bool, material: string, temp: Number, sku: string, brand: string,
                       extruder: Option<Range>, hotbed: Option<Range>)

  /** The part of the driver's state that tag reads touch; absent dictionary keys read as blank or None. */
  datatype State = State(lanes: seq<Lane>, retry: map<int, nat>, pending: set<int>)

  const SLOT_COUNT: nat := 4
  const MAX_RETRY: nat := 6
  const DEFAULT_MATERIAL: string := "Unknown"
  const DEFAULT_TEMP: Number := Int(0)

  const MATERIAL_TEMPS: map<string, int> := map[
    "PLA" := 200, "PLA+" := 210, "PLA Glow" := 210, "PLA High Speed" := 215, "PLA Marble" := 205,
    "PLA Matte" := 205, "PLA SE" := 210, "PLA Silk" := 215, "ABS" := 240, "ASA" := 245, "PETG" := 235,
    "TPU" := 210, "PVA" := 185, "HIPS" := 230, "PC" := 260
  ]

  // ---- The policy helpers ----

  datatype Action = Native | Uid | Raw | Injected | Foreign

  function ClassifyTagVersion(version: int): Action {
    if version == 101 then Native
    else if version == 0x0201 then Uid
    else if version == 0x0202 then Raw
    else if version == 0x0203 then Injected
    else Foreign
  }

  const REAL_TAG_FORMATS: set<string> := {"anycubic", "openspool", "filaman", "openprinttag", "json"}

  /** int() of a bound that is a number: the fraction is dropped, towards zero. */
  function Truncated(x: Number): (n: int)
    ensures x.Int? ==> n == x.n
    ensures x.Float? && 0.0 <= x.x ==> n as real <= x.x < n as real + 1.0
    ensures x.Float? && x.x < 0.0 ==> n as real - 1.0 < x.x <= n as real
  {
    match x
    case Int(n) => n
    case Float(r) => if r >= 0.0 then r.Floor else -(-r).Floor
  }

  function IntOf(x: Option<Number>): Option<int> { if x.None? then None else Some(Truncated(x.value)) }

  /** The heat gate of a fetched image; bounds that are no numbers arrive as None. */
  function RawTempToStore(fmt: string, tempMin: Option<Number>, tempMax: Option<Number>): (t: Option<int>)
    ensures t.Some? ==> 0 < t.value < 500 && fmt in REAL_TAG_FORMATS && (t == IntOf(tempMin) || t == IntOf(tempMax))
    ensures t.Some? && tempMin.Some? && tempMax.Some?
            ==> Truncated(tempMin.value) <= Truncated(tempMax.value) == t.value
  {
    var lo, hi := IntOf(tempMin), IntOf(tempMax);
    if fmt !in REAL_TAG_FORMATS then None
    else if lo.Some? && hi.Some? && lo.value > hi.value then None
    else
      var t := if hi.Some? then hi else lo;
      if t.None? || !(0 < t.value < 500) then None else t
  }

  predicate ReplyIndexMatches(replyIndex: Option<int>, slot: int) {
    replyIndex.None? || replyIndex.value <= 0 || replyIndex.value == slot
  }

  // ---- A filament-info reply ----

  datatype TempMode = Lowest | Highest | Average

  /** A successful reply; a missing temperature bound reads as zero. */
  datatype Reply = Reply(identified: bool, index: Option<int>, version: int, sku: string, brand: string,
                         material: string, extruder: Option<Range>, hotbed: Option<Range>)

  function BoundOrZero(r: Option<Range>, upper: bool): Number {
    if r.None? then Int(0)
    else
      var b := if upper then r.value.max else r.value.min;
      if b.None? then Int(0) else b.value
  }

  function FloorMean(a: Number, b: Number): Number {
    if a.Int? && b.Int? then Int((a.n + b.n) / 2) else Float(((a.Value() + b.Value()) / 2.0).Floor as real)
  }

  /** The nozzle temperature a reply implies, or None when it carries no usable data. */
  function DerivedTemp(reply: Reply, mode: TempMode): Option<Number> {
    var lo, hi := BoundOrZero(reply.extruder, false), BoundOrZero(reply.extruder, true);
    if lo.Value() > 0.0 || hi.Value() > 0.0 then
      if mode == Lowest && lo.Value() > 0.0 then Some(lo)
      else if mode == Highest && hi.Value() > 0.0 then Some(hi)
      else if lo.Value() > 0.0 && hi.Value() > 0.0 then Some(FloorMean(lo, hi))
      else if hi.Value() > 0.0 then Some(hi)
      else Some(lo)
    else if reply.material in MATERIAL_TEMPS then Some(Int(MATERIAL_TEMPS[reply.material]))
    else None
  }

  /** SM<n> or <n>, of one to seven digits. */
  predicate IsCleanSku(sku: string) {
    var s := Trim(sku);
    var d := if |s| >= 2 && Upper(s[..2]) == "SM" then s[2..] else s;
    1 <= |d| <= 7 && AllDigits(d)
  }

  predicate HasControl(s: string) { '"' in s || '\n' in s || '\r' in s }

  predicate InvertedHotbed(hotbed: Option<Range>) {
    && hotbed.Some? && hotbed.value.min.Some? && hotbed.value.max.Some?
    && hotbed.value.min.value.Int? && hotbed.value.max.value.Int?
    && hotbed.value.min.value.n > hotbed.value.max.value.n
  }

  predicate Implausible(reply: Reply, temp: Number) {
    || InvertedHotbed(reply.hotbed)
    || (temp.Int? && !(0 <= temp.n <= 500))
    || HasControl(reply.sku) || HasControl(reply.brand) || HasControl(reply.material)
  }

  /** How far a reply is believed: not at all, for its sku alone, or in every field. */
  datatype Belief = Drop | Fetch | ByUid | SkuOnly | Everything

  function Believe(slot: int, reply: Reply, mode: TempMode): Belief {
    if !reply.identified || !ReplyIndexMatches(reply.index, slot) then Drop
    else
      match ClassifyTagVersion(reply.version)
      case Raw => if IsCleanSku(reply.sku) then SkuOnly else Fetch
      case Injected => if IsCleanSku(reply.sku) then SkuOnly else Drop
      case Uid => ByUid
      case Foreign => Fetch
      case Native =>
        var temp := DerivedTemp(reply, mode);
        if !Implausible(reply, if temp.Some? then temp.value else DEFAULT_TEMP) then Everything
        else if IsCleanSku(reply.sku) then SkuOnly
        else Fetch
  }

  /** Skus are compared trimmed and without case; a blank one identifies nothing. */
  function Key(sku: string): string { Upper(Trim(sku)) }

  predicate HeldElsewhere(lanes: seq<Lane>, slot: int, sku: string) {
    Key(sku) != "" && exists other :: 0 <= other < |lanes| && other != slot && Key(lanes[other].sku) == Key(sku)
  }

  datatype Outcome = Dropped | RawFetch | UidHandoff | GateReopened | GivenUp | Accepted(all: bool)

  function Retries(s: State, slot: int): nat { if slot in s.retry then s.retry[slot] else 0 }

  function ReplyOutcome(s: State, slot: int, reply: Reply, mode: TempMode): Outcome {
    match Believe(slot, reply, mode)
    case Drop => Dropped
    case Fetch => RawFetch
    case ByUid => UidHandoff
    case _ =>
      if !(0 <= slot < |s.lanes|) then Dropped
      else if HeldElsewhere(s.lanes, slot, reply.sku) then
        if Retries(s, slot) + 1 <= MAX_RETRY then GateReopened else GivenUp
      else Accepted(Believe(slot, reply, mode).Everything?)
  }

  /** A lane after an accepted read: what is believed overwrites, what is blank does not. */
  function ReadInto(lane: Lane, reply: Reply, all: bool, mode: TempMode): Lane {
    var temp := DerivedTemp(reply, mode);
    var named := if reply.sku != "" then lane.(sku := reply.sku) else lane;
    if !all then named
    else
      named.(material := if reply.material != "" then reply.material else lane.material,
             brand := if reply.brand != "" then reply.brand else lane.brand,
             temp := if temp.Some? && temp.value.Value() != lane.temp.Value() then temp.value else lane.temp,
             extruder := if reply.extruder.Some? && temp.Some? then reply.extruder else lane.extruder,
             hotbed := if reply.hotbed.Some? then reply.hotbed else lane.hotbed)
  }

  function HandleReply(s: State, slot: int, reply: Reply, mode: TempMode): State {
    var free := s.(pending := s.pending - {slot});
    match ReplyOutcome(s, slot, reply, mode)
    case Dropped => free
    case UidHandoff => free
    case RawFetch => free.(pending := free.pending + {slot})
    case GateReopened =>
      free.(retry := s.retry[slot := Retries(s, slot) + 1],
            lanes := s.lanes[slot := s.lanes[slot].(rfid := false)])
    case GivenUp => free.(retry := s.retry[slot := Retries(s, slot) + 1])
    case Accepted(all) =>
      free.(retry := s.retry - {slot}, lanes := s.lanes[slot := ReadInto(s.lanes[slot], reply, all, mode)])
  }

  // ---- A fetched raw image ----

  /** A parsed image; blank text and missing numbers as the parser leaves them. */
  datatype TagRecord = TagRecord(format: string, sku: string, brand: string, material: string,
                                 tempMin: Option<Number>, tempMax: Option<Number>)

  function ImageInto(lane: Lane, rec: TagRecord): Lane {
    var temp := RawTempToStore(rec.format, rec.tempMin, rec.tempMax);
    lane.(material := if rec.material != "" then rec.material else lane.material,
          brand := if rec.brand != "" then rec.brand else lane.brand,
          sku := if rec.sku != "" then rec.sku else lane.sku,
          temp := if temp.Some? then Int(temp.value) else lane.temp)
  }

  /** None is an image that did not parse; an Anycubic image here is a neighbour's. */
  function ApplyImage(s: State, slot: int, rec: Option<TagRecord>): State {
    var free := s.(pending := s.pending - {slot});
    if rec.None? || rec.value.format == "anycubic" || !(0 <= slot < |s.lanes|) then free
    else free.(lanes := s.lanes[slot := ImageInto(s.lanes[slot], rec.value)])
  }

  // ---- A status frame ----

  datatype Rfid = Missing | NoInfo | Identified | OtherState

  /** One slot of a frame, and whether its reader is free of a running identification. */
  datatype SlotReport = SlotReport(index: int, status: Status, rfid: Rfid, readerFree: bool)

  /** Circumstances of a frame: is a print on, is tag sync on. */
  datatype Setting = Setting(printing: bool, sync: bool)

  function Forget(lane: Lane): Lane { lane.(sku := "", brand := "", extruder := None, hotbed := None) }

  /** The spool was swapped for one without a tag. */
  predicate SwappedUntagged(lane: Lane, report: SlotReport) {
    lane.status == Empty && report.status == Ready && report.rfid == NoInfo && lane.rfid
  }

  predicate StartsRead(s: State, report: SlotReport, w: Setting)
    requires 0 <= report.index < |s.lanes|
  {
    && report.status == Ready && w.sync && report.rfid == Identified
    && !s.lanes[report.index].rfid && report.index !in s.pending && report.readerFree
  }

  function DefaultsInto(lane: Lane): Lane {
    var noMaterial, noTemp := Trim(lane.material) == "", lane.temp.Value() <= 0.0;
    lane.(material := if noMaterial then DEFAULT_MATERIAL else lane.material,
          temp := if noTemp then DEFAULT_TEMP else lane.temp)
  }

  function ReportSlot(s: State, report: SlotReport, w: Setting): State {
    if !(0 <= report.index < |s.lanes|) then s
    else
      var lane := s.lanes[report.index];
      var swapped := SwappedUntagged(lane, report);
      var kept := if swapped || report.status == Empty then s.pending - {report.index} else s.pending;
      var seen := (if swapped then Forget(lane).(rfid := false) else lane).(status := report.status);
      if report.status == Empty then
        var gone := Forget(seen).(rfid := false);
        s.(pending := kept,
           lanes := s.lanes[report.index := if w.printing then gone else gone.(material := "", temp := Int(0))])
      else if report.status == Ready then
        var starts := StartsRead(s, report, w);
        var pending := if starts then kept + {report.index} else kept;
        var lit := if starts then seen.(rfid := true) else seen;
        var mayDefault := w.sync || report.rfid == Missing || report.rfid == NoInfo;
        s.(pending := pending,
           lanes := s.lanes[report.index := if mayDefault && report.index !in pending then DefaultsInto(lit) else lit])
      else s.(pending := kept, lanes := s.lanes[report.index := seen])
  }

  function ReportSlots(s: State, reports: seq<SlotReport>, w: Setting): State
    decreases |reports|
  {
    if reports == [] then s else ReportSlots(ReportSlot(s, reports[0], w), reports[1..], w)
  }

  // ---- Runs ----

  datatype Event =
    | ReplyEvent(slot: int, reply: Reply)
    | NoReply(slot: int)
    | ImageEvent(slot: int, rec: Option<TagRecord>)
    | Frame(reports: seq<SlotReport>, setting: Setting)
    | Query(slot: int)

  function Step(s: State, e: Event, mode: TempMode): State {
    match e
    case ReplyEvent(slot, reply) => HandleReply(s, slot, reply, mode)
    case NoReply(slot) => s.(pending := s.pending - {slot})
    case ImageEvent(slot, rec) => ApplyImage(s, slot, rec)
    case Frame(reports, setting) => ReportSlots(s, reports, setting)
    case Query(slot) => s.(pending := s.pending + {slot})
  }

  function Run(s: State, events: seq<Event>, mode: TempMode): State
    decreases |events|
  {
    if events == [] then s else Run(Step(s, events[0], mode), events[1..], mode)
  }

  // ---- The driver object ----

  class AceInstance {
    var lanes: seq<Lane>
    var retry: map<int, nat>
    var pending: set<int>
    const mode: TempMode

    constructor (lanes: seq<Lane>, mode: TempMode)
      ensures Now() == State(lanes, map[], {}) && this.mode == mode
    {
      this.lanes, this.mode := lanes, mode;
      retry, pending := map[], {};
    }

    function Now(): State
      reads this
    {
      State(lanes, retry, pending)
    }

    method HandleRfidInfoResponse(slot: int, response: Option<Reply>)
      modifies this
      ensures Now() == Step(old(Now()), if response.Some? then ReplyEvent(slot, response.value) else NoReply(slot),
                            mode)
    {
      hide IsCleanSku, HeldElsewhere, Implausible, DerivedTemp, ReadInto, ReplyIndexMatches;
      pending := pending - {slot};
      if response.None? {
        return;
      }
      var reply := response.value;
      if !reply.identified {
        return;
      }
      var temp := DerivedTemp(reply, mode);
      if !ReplyIndexMatches(reply.index, slot) {
        return;
      }
      var action := ClassifyTagVersion(reply.version);
      var all := true;
      if action == Raw {
        if !IsCleanSku(reply.sku) {
          pending := pending + {slot};
          return;
        }
        all := false;
        action := Native;
      }
      if action == Injected {
        if !IsCleanSku(reply.sku) {
          return;
        }
        all := false;
        action := Native;
      }
      if action == Uid {
        return;
      }
      if action != Native {
        pending := pending + {slot};
        return;
      }
      if all && Implausible(reply, if temp.Some? then temp.value else DEFAULT_TEMP) {
        if !IsCleanSku(reply.sku) {
          pending := pending + {slot};
          return;
        }
        all := false;
      }
      if 0 <= slot < |lanes| {
        AdoptRead(slot, reply, all, temp);
      }
    }

    /** Refuse a neighbour's tag, or write what is believed into the lane. */
    method AdoptRead(slot: int, reply: Reply, all: bool, temp: Option<Number>)
      requires 0 <= slot < |lanes| && temp == DerivedTemp(reply, mode)
      modifies this
      ensures pending == old(pending) && |lanes| == old(|lanes|)
      ensures var n := old(Retries(Now(), slot)) + 1;
              if old(HeldElsewhere(lanes, slot, reply.sku)) then
                && retry == old(retry)[slot := n]
                && lanes == if n <= MAX_RETRY then old(lanes)[slot := old(lanes)[slot].(rfid := false)]
                            else old(lanes)
              else
                && retry == old(retry) - {slot}
                && lanes == old(lanes)[slot := ReadInto(old(lanes)[slot], reply, all, mode)]
    {
      var other := ReadBelongsToOtherLane(slot, reply.sku);
      var lane := lanes[slot];
      if other.Some? {
        var n := (if slot in retry then retry[slot] else 0) + 1;
        retry := retry[slot := n];
        if n <= MAX_RETRY {
          lanes := lanes[slot := lane.(rfid := false)];
        }
        return;
      }
      retry := retry - {slot};
      if all && reply.material != "" {
        lane := lane.(material := reply.material);
      }
      if all && temp.Some? && temp.value.Value() != lane.temp.Value() {
        lane := lane.(temp := temp.value);
      }
      if reply.sku != "" {
        lane := lane.(sku := reply.sku);
      }
      if all && reply.brand != "" {
        lane := lane.(brand := reply.brand);
      }
      if all && reply.extruder.Some? && temp.Some? {
        lane := lane.(extruder := reply.extruder);
      }
      if all && reply.hotbed.Some? {
        lane := lane.(hotbed := reply.hotbed);
      }
      lanes := lanes[slot := lane];
    }

    /** The first other lane that already holds this sku. */
    method ReadBelongsToOtherLane(slot: int, sku: string) returns (other: Option<nat>)
      ensures other.Some? <==> HeldElsewhere(lanes, slot, sku)
      ensures other.Some? ==>
                other.value < |lanes| && other.value != slot && Key(lanes[other.value].sku) == Key(sku) != ""
      ensures other.Some? ==> forall j :: 0 <= j < other.value && j != slot ==> Key(lanes[j].sku) != Key(sku)
    {
      hide Key;
      if Key(sku) == "" {
        return None;
      }
      for i := 0 to |lanes|
        invariant forall j :: 0 <= j < i && j != slot ==> Key(lanes[j].sku) != Key(sku)
      {
        if i != slot && Key(lanes[i].sku) == Key(sku) {
          return Some(i);
        }
      }
      other := None;
    }

    method ApplyRawTagImage(slot: int, rec: Option<TagRecord>)
      modifies this
      ensures Now() == Step(old(Now()), ImageEvent(slot, rec), mode)
    {
      pending := pending - {slot};
      if rec.None? {
        return;
      }
      var r := rec.value;
      if r.format == "anycubic" {
        return;
      }
      var temp := RawTempToStore(r.format, r.tempMin, r.tempMax);
      if 0 <= slot < |lanes| {
        var lane := lanes[slot];
        if r.material != "" {
          lane := lane.(material := r.material);
        }
        if r.brand != "" {
          lane := lane.(brand := r.brand);
        }
        if r.sku != "" {
          lane := lane.(sku := r.sku);
        }
        if temp.Some? {
          lane := lane.(temp := Int(temp.value));
        }
        lanes := lanes[slot := lane];
      }
    }

    method StatusUpdateCallback(reports: seq<SlotReport>, setting: Setting)
      modifies this
      ensures Now() == Step(old(Now()), Frame(reports, setting), mode)
    {
      hide ReportSlot;
      for k := 0 to |reports|
        invariant ReportSlots(Now(), reports[k..], setting) == ReportSlots(old(Now()), reports, setting)
      {
        assert reports[k..][0] == reports[k] && reports[k..][1..] == reports[k + 1..];
        UpdateSlot(reports[k], setting);
      }
    }

    method UpdateSlot(report: SlotReport, setting: Setting)
      modifies this
      ensures Now() == ReportSlot(old(Now()), report, setting)
    {
      var idx := report.index;
      if !(0 <= idx < |lanes|) {
        return;
      }
      var lane := lanes[idx];
      var rfid: Option<bool> := None;
      if lane.status == Empty && report.status == Ready && report.rfid == NoInfo && lane.rfid {
        rfid := Some(false);
        lane := Forget(lane);
        pending := pending - {idx};
      }
      if report.status == Empty {
        rfid := Some(false);
        lane := Forget(lane);
        pending := pending - {idx};
        if !setting.printing {
          lane := lane.(material := "", temp := Int(0));
        }
      } else if report.status == Ready {
        if setting.sync && report.rfid == Identified && !lane.rfid && idx !in pending && report.readerFree {
          rfid := Some(true);
          pending := pending + {idx};
        }
        var mayDefault := setting.sync || report.rfid == Missing || report.rfid == NoInfo;
        if mayDefault && idx !in pending {
          if Trim(lane.material) == "" {
            lane := lane.(material := DEFAULT_MATERIAL);
          }
          if lane.temp.Value() <= 0.0 {
            lane := lane.(temp := DEFAULT_TEMP);
          }
        }
      }
      lanes := lanes[idx := lane.(status := report.status, rfid := if rfid.Some? then rfid.value else lane.rfid)];
    }
  }

  // ---- Heat safety ----

  predicate SafeTemp(t: Number) { 0.0 <= t.Value() <= 500.0 }

  predicate HeatSafe(s: State) { forall i :: 0 <= i < |s.lanes| ==> SafeTemp(s.lanes[i].temp) }

  /** The plausibility check lets a temperature through unseen when it is not an integer. */
  predicate Overheats(s: State, slot: int, reply: Reply, mode: TempMode) {
    && ReplyOutcome(s, slot, reply, mode) == Accepted(true)
    && var temp := DerivedTemp(reply, mode);
       temp.Some? && temp.value.Float? && !SafeTemp(temp.value)
  }

  lemma IntegerTempsAreChecked(slot: int, reply: Reply, mode: TempMode)
    requires Believe(slot, reply, mode) == Everything && DerivedTemp(reply, mode).Some?
    requires DerivedTemp(reply, mode).value.Int?
    ensures SafeTemp(DerivedTemp(reply, mode).value)
  {
    hide DerivedTemp, IsCleanSku, HasControl;
  }

  /** A reply keeps every lane safe exactly when it is not an accepted one with an unsafe non-integer. */
  lemma ReplyHeatSafety(s: State, slot: int, reply: Reply, mode: TempMode)
    requires HeatSafe(s)
    ensures HeatSafe(HandleReply(s, slot, reply, mode)) <==> !Overheats(s, slot, reply, mode)
  {
    hide DerivedTemp, Believe, HeldElsewhere, MATERIAL_TEMPS;
    var after := HandleReply(s, slot, reply, mode);
    match ReplyOutcome(s, slot, reply, mode)
    case Accepted(all) =>
      var temp := DerivedTemp(reply, mode);
      assert after.lanes[slot] == ReadInto(s.lanes[slot], reply, all, mode);
      if all && temp.Some? && temp.value.Int? {
        IntegerTempsAreChecked(slot, reply, mode);
      }
      assert forall i :: 0 <= i < |s.lanes| && i != slot ==> after.lanes[i] == s.lanes[i];
    case _ =>
      assert forall i :: 0 <= i < |s.lanes| ==> after.lanes[i].temp == s.lanes[i].temp;
  }

  lemma ImageHeatSafety(s: State, slot: int, rec: Option<TagRecord>)
    requires HeatSafe(s)
    ensures HeatSafe(ApplyImage(s, slot, rec))
  {
  }

  lemma ReportHeatSafety(s: State, report: SlotReport, w: Setting)
    requires HeatSafe(s)
    ensures HeatSafe(ReportSlot(s, report, w))
  {
    hide Trim;
    if 0 <= report.index < |s.lanes| {
      var after := ReportSlot(s, report, w);
      assert SafeTemp(after.lanes[report.index].temp);
      assert forall i :: 0 <= i < |s.lanes| && i != report.index ==> after.lanes[i] == s.lanes[i];
    }
  }

  lemma {:induction false} FrameHeatSafety(s: State, reports: seq<SlotReport>, w: Setting)
    requires HeatSafe(s)
    ensures HeatSafe(ReportSlots(s, reports, w))
    decreases |reports|
  {
    hide ReportSlot, HeatSafe;
    if reports != [] {
      ReportHeatSafety(s, reports[0], w);
      FrameHeatSafety(ReportSlot(s, reports[0], w), reports[1..], w);
    }
  }

  /** No reply of the run is an accepted one with an unsafe non-integer temperature. */
  ghost predicate NeverOverheats(s: State, events: seq<Event>, mode: TempMode)
    decreases |events|
  {
    events != [] ==>
      && (events[0].ReplyEvent? ==> !Overheats(s, events[0].slot, events[0].reply, mode))
      && NeverOverheats(Step(s, events[0], mode), events[1..], mode)
  }

  /** Lane temperatures are safe at the start and after every event. */
  ghost predicate AlwaysHeatSafe(s: State, events: seq<Event>, mode: TempMode)
    decreases |events|
  {
    HeatSafe(s) && (events != [] ==> AlwaysHeatSafe(Step(s, events[0], mode), events[1..], mode))
  }

  /** Whatever the device answers and reports, that one kind of reply is all that can make a run unsafe. */
  lemma {:induction false} RunHeatSafety(s: State, events: seq<Event>, mode: TempMode)
    requires HeatSafe(s)
    ensures AlwaysHeatSafe(s, events, mode) <==> NeverOverheats(s, events, mode)
    decreases |events|
  {
    hide HeatSafe, HandleReply, ApplyImage, ReportSlots, Overheats;
    if events != [] {
      var e := events[0];
      match e {
        case ReplyEvent(slot, reply) => ReplyHeatSafety(s, slot, reply, mode);
        case ImageEvent(slot, rec) => ImageHeatSafety(s, slot, rec);
        case Frame(reports, w) => FrameHeatSafety(s, reports, w);
        case _ => SameLanesHeatSafety(s, Step(s, e, mode));
      }
      if HeatSafe(Step(s, e, mode)) {
        RunHeatSafety(Step(s, e, mode), events[1..], mode);
      }
    }
  }

  lemma SameLanesHeatSafety(s: State, t: State)
    requires HeatSafe(s) && s.lanes == t.lanes
    ensures HeatSafe(t)
  {
  }

  /** Integer bounds in every reply are enough. */
  predicate IntegerBounds(reply: Reply) {
    BoundOrZero(reply.extruder, false).Int? && BoundOrZero(reply.extruder, true).Int?
  }

  lemma {:induction false} IntegerRunsNeverOverheat(s: State, events: seq<Event>, mode: TempMode)
    requires forall i :: 0 <= i < |events| && events[i].ReplyEvent? ==> IntegerBounds(events[i].reply)
    ensures NeverOverheats(s, events, mode)
    decreases |events|
  {
    hide ReplyOutcome, MATERIAL_TEMPS, Step;
    if events != [] {
      IntegerRunsNeverOverheat(Step(s, events[0], mode), events[1..], mode);
    }
  }

  /** A native reply of 600.0 degrees passes the range check that 600 does not, and reaches the lane. */
  lemma FloatReachesTheHeater(s: State, mode: TempMode)
    requires |s.lanes| == SLOT_COUNT && HeatSafe(s)
    ensures var hot := Some(Range(Some(Float(600.0)), Some(Float(600.0))));
            var reply := Reply(true, None, 101, "", "", "", hot, None);
            HandleReply(s, 0, reply, mode).lanes[0].temp.Value() == 600.0
  {
    var hot := Some(Range(Some(Float(600.0)), Some(Float(600.0))));
    var reply := Reply(true, None, 101, "", "", "", hot, None);
    assert Key("") == "" by {
      assert TrimLeft("") == "" && TrimRight("") == "" && Trim("") == "";
    }
    assert ((600.0 + 600.0) / 2.0).Floor == 600;
    assert DerivedTemp(reply, mode) == Some(Float(600.0));
    assert !Implausible(reply, Float(600.0));
    assert Believe(0, reply, mode) == Everything;
  }

  // ---- What an untrusted reply may write ----

  /** A reply whose version is not the native one leaves heat and material alone. */
  lemma ForeignReplyWritesNoHeat(s: State, slot: int, reply: Reply, mode: TempMode, i: nat)
    requires reply.version != 101 && i < |s.lanes|
    ensures var before, after := s.lanes[i], HandleReply(s, slot, reply, mode).lanes;
            && |after| == |s.lanes|
            && after[i].temp == before.temp && after[i].extruder == before.extruder && after[i].hotbed == before.hotbed
            && after[i].material == before.material && after[i].brand == before.brand
  {
    hide IsCleanSku, HeldElsewhere;
  }

  /** Versions the driver takes for another layout read by position: every one it has no rule for. */
  lemma ForeignReplyIsRefetched(s: State, slot: int, reply: Reply, mode: TempMode)
    requires ClassifyTagVersion(reply.version) == Foreign
    ensures HandleReply(s, slot, reply, mode).lanes == s.lanes
    ensures ReplyOutcome(s, slot, reply, mode)
            == if reply.identified && ReplyIndexMatches(reply.index, slot) then RawFetch else Dropped
    ensures slot in HandleReply(s, slot, reply, mode).pending
            <==> reply.identified && ReplyIndexMatches(reply.index, slot)
  {
  }

  predicate HotbedsOrdered(s: State) { forall i :: 0 <= i < |s.lanes| ==> !InvertedHotbed(s.lanes[i].hotbed) }

  lemma StepKeepsHotbeds(s: State, e: Event, mode: TempMode)
    requires HotbedsOrdered(s)
    ensures HotbedsOrdered(Step(s, e, mode))
  {
    hide IsCleanSku, HeldElsewhere, DerivedTemp, HasControl, RawTempToStore;
    if e.Frame? {
      hide ReportSlot, HotbedsOrdered;
      FrameKeepsHotbeds(s, e.reports, e.setting);
    }
  }

  lemma ReportKeepsHotbeds(s: State, report: SlotReport, w: Setting)
    requires HotbedsOrdered(s)
    ensures HotbedsOrdered(ReportSlot(s, report, w))
  {
    hide Trim;
  }

  lemma {:induction false} FrameKeepsHotbeds(s: State, reports: seq<SlotReport>, w: Setting)
    requires HotbedsOrdered(s)
    ensures HotbedsOrdered(ReportSlots(s, reports, w))
    decreases |reports|
  {
    hide ReportSlot, HotbedsOrdered;
    if reports != [] {
      ReportKeepsHotbeds(s, reports[0], w);
      FrameKeepsHotbeds(ReportSlot(s, reports[0], w), reports[1..], w);
    }
  }

  /** A stored bed range with integer bounds is never inverted, whatever happens. */
  lemma {:induction false} RunKeepsHotbeds(s: State, events: seq<Event>, mode: TempMode)
    requires HotbedsOrdered(s)
    ensures HotbedsOrdered(Run(s, events, mode))
    decreases |events|
  {
    hide Step, HotbedsOrdered;
    if events != [] {
      StepKeepsHotbeds(s, events[0], mode);
      RunKeepsHotbeds(Step(s, events[0], mode), events[1..], mode);
    }
  }

  // ---- One lane per sku ----

  predicate OneLanePerSku(s: State) {
    forall i, j :: 0 <= i < j < |s.lanes| && Key(s.lanes[i].sku) != "" ==> Key(s.lanes[i].sku) != Key(s.lanes[j].sku)
  }

  /** Putting a sku into a lane keeps the lanes distinct when it is blank or held nowhere else. */
  lemma NewSkuKeepsDistinct(s: State, t: State, slot: nat)
    requires OneLanePerSku(s) && slot < |s.lanes| && |t.lanes| == |s.lanes|
    requires forall i :: 0 <= i < |s.lanes| && i != slot ==> t.lanes[i].sku == s.lanes[i].sku
    ensures OneLanePerSku(t) <==> !HeldElsewhere(s.lanes, slot, t.lanes[slot].sku)
  {
    hide Key;
    if HeldElsewhere(s.lanes, slot, t.lanes[slot].sku) {
      var other :| 0 <= other < |s.lanes| && other != slot && Key(s.lanes[other].sku) == Key(t.lanes[slot].sku);
      assert t.lanes[other].sku == s.lanes[other].sku;
      var i, j := if other < slot then other else slot, if other < slot then slot else other;
      assert Key(t.lanes[i].sku) == Key(t.lanes[j].sku) != "";
    }
  }

  lemma BlankKey(slot: int, lanes: seq<Lane>)
    ensures !HeldElsewhere(lanes, slot, "")
  {
    assert Trim("") == "" by { assert TrimLeft("") == "" && TrimRight("") == ""; }
  }

  lemma OwnSkuIsNotElsewhere(s: State, slot: nat)
    requires OneLanePerSku(s) && slot < |s.lanes|
    ensures !HeldElsewhere(s.lanes, slot, s.lanes[slot].sku)
  {
    hide Key;
  }

  lemma ReplyKeepsDistinct(s: State, slot: int, reply: Reply, mode: TempMode)
    requires OneLanePerSku(s)
    ensures OneLanePerSku(HandleReply(s, slot, reply, mode))
  {
    hide Believe, DerivedTemp, Key, HeldElsewhere, OneLanePerSku;
    if 0 <= slot < |s.lanes| {
      OwnSkuIsNotElsewhere(s, slot);
      NewSkuKeepsDistinct(s, HandleReply(s, slot, reply, mode), slot);
    } else {
      NoLaneChange(s, HandleReply(s, slot, reply, mode));
    }
  }

  lemma NoLaneChange(s: State, t: State)
    requires OneLanePerSku(s) && t.lanes == s.lanes
    ensures OneLanePerSku(t)
  {
    hide Key;
  }

  /** A raw image is not checked: it keeps the lanes distinct exactly when no other lane holds its sku. */
  lemma ImageKeepsDistinct(s: State, slot: nat, rec: TagRecord)
    requires OneLanePerSku(s) && slot < |s.lanes| && rec.format != "anycubic" && rec.sku != ""
    ensures OneLanePerSku(ApplyImage(s, slot, Some(rec))) <==> !HeldElsewhere(s.lanes, slot, rec.sku)
  {
    hide Key, HeldElsewhere, OneLanePerSku;
    NewSkuKeepsDistinct(s, ApplyImage(s, slot, Some(rec)), slot);
  }

  lemma ReportKeepsDistinct(s: State, report: SlotReport, w: Setting)
    requires OneLanePerSku(s)
    ensures OneLanePerSku(ReportSlot(s, report, w))
  {
    hide Key, HeldElsewhere, OneLanePerSku, Trim;
    var t := ReportSlot(s, report, w);
    if 0 <= report.index < |s.lanes| {
      OwnSkuIsNotElsewhere(s, report.index);
      BlankKey(report.index, s.lanes);
      NewSkuKeepsDistinct(s, t, report.index);
    } else {
      NoLaneChange(s, t);
    }
  }

  lemma {:induction false} FrameKeepsDistinct(s: State, reports: seq<SlotReport>, w: Setting)
    requires OneLanePerSku(s)
    ensures OneLanePerSku(ReportSlots(s, reports, w))
    decreases |reports|
  {
    hide ReportSlot, OneLanePerSku;
    if reports != [] {
      ReportKeepsDistinct(s, reports[0], w);
      FrameKeepsDistinct(ReportSlot(s, reports[0], w), reports[1..], w);
    }
  }

  /** Over any run without raw images no two lanes come to hold one sku. */
  lemma {:induction false} RunKeepsDistinct(s: State, events: seq<Event>, mode: TempMode)
    requires OneLanePerSku(s) && forall i :: 0 <= i < |events| ==> !events[i].ImageEvent?
    ensures OneLanePerSku(Run(s, events, mode))
    decreases |events|
  {
    hide HandleReply, ReportSlots, OneLanePerSku;
    if events != [] {
      var e := events[0];
      match e {
        case ReplyEvent(slot, reply) => ReplyKeepsDistinct(s, slot, reply, mode);
        case Frame(reports, w) => FrameKeepsDistinct(s, reports, w);
        case _ => NoLaneChange(s, Step(s, e, mode));
      }
      RunKeepsDistinct(Step(s, e, mode), events[1..], mode);
    }
  }

  // ---- A lane's read gate ----

  function OutcomeFor(s: State, e: Event, slot: int, mode: TempMode): Option<Outcome> {
    if e.ReplyEvent? && e.slot == slot then Some(ReplyOutcome(s, slot, e.reply, mode)) else None
  }

  /** How often the gate of a slot was reopened since its last accepted read, n times before the run. */
  function Reopened(s: State, events: seq<Event>, slot: int, mode: TempMode, n: nat): nat
    decreases |events|
  {
    if events == [] then n
    else
      var outcome := OutcomeFor(s, events[0], slot, mode);
      var next := if outcome == Some(GateReopened) then n + 1
                  else if outcome.Some? && outcome.value.Accepted? then 0
                  else n;
      Reopened(Step(s, events[0], mode), events[1..], slot, mode, next)
  }

  lemma {:induction false} FrameKeepsRetry(s: State, reports: seq<SlotReport>, w: Setting)
    ensures ReportSlots(s, reports, w).retry == s.retry
    decreases |reports|
  {
    hide Trim, StartsRead, SwappedUntagged, DefaultsInto;
    if reports != [] {
      FrameKeepsRetry(ReportSlot(s, reports[0], w), reports[1..], w);
    }
  }

  lemma {:induction false} ReopenedAtMost(s: State, events: seq<Event>, slot: int, mode: TempMode, n: nat)
    requires n <= Retries(s, slot) && n <= MAX_RETRY
    ensures Reopened(s, events, slot, mode, n) <= MAX_RETRY
    decreases |events|
  {
    hide ReplyOutcome, ReadInto, ReportSlots;
    if events != [] {
      var e := events[0];
      var t := Step(s, e, mode);
      if e.Frame? {
        FrameKeepsRetry(s, e.reports, e.setting);
      } else if e.ReplyEvent? {
        RetryAfter(s, e.slot, e.reply, mode, slot);
      }
      var outcome := OutcomeFor(s, e, slot, mode);
      var next := if outcome == Some(GateReopened) then n + 1
                  else if outcome.Some? && outcome.value.Accepted? then 0
                  else n;
      ReopenedAtMost(t, events[1..], slot, mode, next);
    }
  }

  lemma RetryAfter(s: State, at: int, reply: Reply, mode: TempMode, slot: int)
    ensures var t, outcome := HandleReply(s, at, reply, mode), ReplyOutcome(s, at, reply, mode);
            && (slot != at ==> Retries(t, slot) == Retries(s, slot))
            && (outcome == GateReopened || outcome == GivenUp ==> Retries(t, at) == Retries(s, at) + 1)
            && (outcome == GateReopened ==> Retries(s, at) + 1 <= MAX_RETRY)
            && (!outcome.GateReopened? && !outcome.GivenUp? && !outcome.Accepted? ==> Retries(t, at) == Retries(s, at))
  {
    hide Believe, DerivedTemp, HeldElsewhere, ReadInto;
  }

  /** Between accepted reads a lane reopens its gate for a neighbour's tag at most six times. */
  lemma GateReopensAtMostSixTimes(lanes: seq<Lane>, events: seq<Event>, slot: int, mode: TempMode)
    ensures Reopened(State(lanes, map[], {}), events, slot, mode, 0) <= 6
  {
    ReopenedAtMost(State(lanes, map[], {}), events, slot, mode, 0);
  }
}
