/** What replies, images and frames do to a lane, said of the fields themselves. */
module LaneLaws {
  import opened Wrappers
  import opened Text
  import opened LaneInventory

  // ---- The temperature a reply implies ----

  function Lo(reply: Reply): Number { BoundOrZero(reply.extruder, false) }

  function Hi(reply: Reply): Number { BoundOrZero(reply.extruder, true) }

  predicate Positive(x: Number) { x.Value() > 0.0 }

  function StoredTemp(s: State, slot: nat, reply: Reply, mode: TempMode): real
    requires slot < |s.lanes|
  {
    HandleReply(s, slot, reply, mode).lanes[slot].temp.Value()
  }

  /** After an accepted native reply the lane holds the temperature it implies, or what it held if it implies none. */
  lemma AcceptedTempIsDerived(s: State, slot: nat, reply: Reply, mode: TempMode)
    requires slot < |s.lanes| && ReplyOutcome(s, slot, reply, mode) == Accepted(true)
    ensures StoredTemp(s, slot, reply, mode)
            == if DerivedTemp(reply, mode).Some? then DerivedTemp(reply, mode).value.Value()
               else s.lanes[slot].temp.Value()
  {
    hide DerivedTemp, ReplyOutcome;
  }

  /** With integer bounds in order the lane's temperature lies between them, in every mode. */
  lemma TempWithinBounds(s: State, slot: nat, reply: Reply, mode: TempMode)
    requires slot < |s.lanes| && ReplyOutcome(s, slot, reply, mode) == Accepted(true)
    requires Lo(reply).Int? && Hi(reply).Int? && 0 < Lo(reply).n <= Hi(reply).n
    ensures Lo(reply).Value() <= StoredTemp(s, slot, reply, mode) <= Hi(reply).Value()
  {
    AcceptedTempIsDerived(s, slot, reply, mode);
    hide ReplyOutcome, HandleReply, MATERIAL_TEMPS;
  }

  /** Lowest and Highest store the very bounds; Average their mean, rounded down. */
  lemma TempByMode(s: State, slot: nat, reply: Reply, mode: TempMode)
    requires slot < |s.lanes| && ReplyOutcome(s, slot, reply, mode) == Accepted(true)
    requires Positive(Lo(reply)) && Positive(Hi(reply))
    ensures mode == Lowest ==> StoredTemp(s, slot, reply, mode) == Lo(reply).Value()
    ensures mode == Highest ==> StoredTemp(s, slot, reply, mode) == Hi(reply).Value()
    ensures mode == Average ==>
              && 0.0 <= Lo(reply).Value() + Hi(reply).Value() - 2.0 * StoredTemp(s, slot, reply, mode) < 2.0
              && (Lo(reply).Int? && Hi(reply).Int? ==>
                    Lo(reply).Value() + Hi(reply).Value() - 2.0 * StoredTemp(s, slot, reply, mode) <= 1.0)
    ensures mode == Average ==> StoredTemp(s, slot, reply, mode).Floor as real == StoredTemp(s, slot, reply, mode)
  {
    AcceptedTempIsDerived(s, slot, reply, mode);
    hide ReplyOutcome, HandleReply, MATERIAL_TEMPS;
    MeanIsMean(Lo(reply), Hi(reply));
    hide FloorMean;
  }

  lemma MeanIsMean(a: Number, b: Number)
    ensures var t := FloorMean(a, b).Value();
            && 0.0 <= a.Value() + b.Value() - 2.0 * t < 2.0 && t.Floor as real == t
            && (a.Int? && b.Int? ==> a.Value() + b.Value() - 2.0 * t <= 1.0)
  {
    if a.Int? && b.Int? {
      var m := (a.n + b.n) / 2;
      assert 0 <= a.n + b.n - 2 * m <= 1;
      assert a.Value() + b.Value() == (a.n + b.n) as real;
      assert FloorMean(a, b) == Int(m);
    }
  }

  /** With one positive bound it is that bound, in every mode; with none it is the material's, or nothing. */
  lemma TempFromLess(reply: Reply, mode: TempMode)
    ensures Positive(Lo(reply)) && !Positive(Hi(reply)) ==> DerivedTemp(reply, mode) == Some(Lo(reply))
    ensures !Positive(Lo(reply)) && Positive(Hi(reply)) ==> DerivedTemp(reply, mode) == Some(Hi(reply))
    ensures !Positive(Lo(reply)) && !Positive(Hi(reply)) ==>
              DerivedTemp(reply, mode)
              == if reply.material in MATERIAL_TEMPS then Some(Int(MATERIAL_TEMPS[reply.material])) else None
  {
    hide MATERIAL_TEMPS;
  }

  // ---- Which replies are believed ----

  predicate Attributed(slot: int, reply: Reply) {
    reply.identified && !(reply.index.Some? && reply.index.value > 0 && reply.index.value != slot)
  }

  predicate QuoteOrBreak(s: string) { exists c :: c in s && (c == '"' || c == '\n' || c == '\r') }

  /** A version-101 decode that cannot be real. */
  predicate Garbage(reply: Reply, mode: TempMode) {
    || (reply.hotbed.Some?
        && match (reply.hotbed.value.min, reply.hotbed.value.max)
           case (Some(Int(lo)), Some(Int(hi))) => lo > hi
           case _ => false)
    || (match DerivedTemp(reply, mode)
        case Some(Int(t)) => t < 0 || t > 500
        case _ => false)
    || QuoteOrBreak(reply.sku) || QuoteOrBreak(reply.brand) || QuoteOrBreak(reply.material)
  }

  lemma GarbageIsImplausible(reply: Reply, mode: TempMode)
    ensures Garbage(reply, mode)
            <==> Implausible(reply, if DerivedTemp(reply, mode).Some? then DerivedTemp(reply, mode).value
                                    else DEFAULT_TEMP)
  {
    hide DerivedTemp;
    ControlIsQuoteOrBreak(reply.sku);
    ControlIsQuoteOrBreak(reply.brand);
    ControlIsQuoteOrBreak(reply.material);
    hide HasControl, QuoteOrBreak;
  }

  lemma ControlIsQuoteOrBreak(s: string)
    ensures HasControl(s) <==> QuoteOrBreak(s)
  {
  }

  /** Replies that change no lane, by attribution and version. */
  lemma UnbelievedReplies(s: State, slot: int, reply: Reply, mode: TempMode)
    ensures var outcome, clean := ReplyOutcome(s, slot, reply, mode), IsCleanSku(reply.sku);
            && (!Attributed(slot, reply) ==> outcome == Dropped)
            && (Attributed(slot, reply) ==>
                 && (reply.version == 513 ==> outcome == UidHandoff)
                 && (reply.version == 514 && !clean ==> outcome == RawFetch)
                 && (reply.version == 515 && !clean ==> outcome == Dropped)
                 && (reply.version == 101 && Garbage(reply, mode) && !clean ==> outcome == RawFetch)
                 && (reply.version !in [101, 513, 514, 515] ==> outcome == RawFetch))
  {
    GarbageIsImplausible(reply, mode);
    hide IsCleanSku, Garbage, Implausible, DerivedTemp, HeldElsewhere;
  }

  /** Replies whose sku counts, and those that are taken whole. */
  lemma BelievedReplies(s: State, slot: int, reply: Reply, mode: TempMode)
    requires Attributed(slot, reply)
    requires reply.version == 101 || ((reply.version == 514 || reply.version == 515) && IsCleanSku(reply.sku))
    requires Garbage(reply, mode) && reply.version == 101 ==> IsCleanSku(reply.sku)
    ensures var outcome := ReplyOutcome(s, slot, reply, mode);
            if slot < 0 || slot >= |s.lanes| then outcome == Dropped
            else if HeldElsewhere(s.lanes, slot, reply.sku) then
              outcome == if Retries(s, slot) < 6 then GateReopened else GivenUp
            else outcome == Accepted(reply.version == 101 && !Garbage(reply, mode))
  {
    GarbageIsImplausible(reply, mode);
    hide IsCleanSku, Garbage, Implausible, DerivedTemp, HeldElsewhere;
  }

  // ---- What is written ----

  /** An accepted reply writes its lane: what is blank or not believed leaves the old value. */
  lemma AcceptedReplyStores(s: State, slot: nat, reply: Reply, mode: TempMode, all: bool)
    requires slot < |s.lanes| && ReplyOutcome(s, slot, reply, mode) == Accepted(all)
    ensures var t := HandleReply(s, slot, reply, mode);
            var before, after := s.lanes[slot], t.lanes[slot];
            && after.sku == (if reply.sku == "" then before.sku else reply.sku)
            && after.material == (if all && reply.material != "" then reply.material else before.material)
            && after.brand == (if all && reply.brand != "" then reply.brand else before.brand)
            && after.hotbed == (if all && reply.hotbed.Some? then reply.hotbed else before.hotbed)
            && (!all ==> after.temp == before.temp && after.extruder == before.extruder)
            && (all && DerivedTemp(reply, mode).Some? && reply.extruder.Some? ==> after.extruder == reply.extruder)
            && (DerivedTemp(reply, mode).None? || reply.extruder.None? ==> after.extruder == before.extruder)
            && after.status == before.status && after.rfid == before.rfid
            && slot !in t.retry && slot !in t.pending
  {
    hide DerivedTemp, ReplyOutcome;
  }

  /** Only the reply's own lane, retry count and pending read can change. */
  lemma ReplyTouchesItsSlot(s: State, slot: int, reply: Reply, mode: TempMode, k: int)
    requires k != slot
    ensures var t := HandleReply(s, slot, reply, mode);
            && |t.lanes| == |s.lanes| && (0 <= k < |s.lanes| ==> t.lanes[k] == s.lanes[k])
            && Retries(t, k) == Retries(s, k) && (k in t.pending <==> k in s.pending)
  {
    hide DerivedTemp, Believe, HeldElsewhere, ReadInto;
  }

  /** A reply that is not accepted changes at most the read gate, and a raw fetch is what keeps the slot busy. */
  lemma RefusedReplyKeeps(s: State, slot: int, reply: Reply, mode: TempMode)
    requires !ReplyOutcome(s, slot, reply, mode).Accepted?
    ensures var t, outcome := HandleReply(s, slot, reply, mode), ReplyOutcome(s, slot, reply, mode);
            && (slot in t.pending <==> outcome == RawFetch)
            && (outcome != GateReopened ==> t.lanes == s.lanes)
            && (outcome == GateReopened ==>
                  0 <= slot < |s.lanes| && t.lanes == s.lanes[slot := s.lanes[slot].(rfid := false)])
            && Retries(t, slot) == Retries(s, slot) + if outcome == GateReopened || outcome == GivenUp then 1 else 0
  {
    hide DerivedTemp, Believe, HeldElsewhere, ReadInto;
  }

  // ---- A lane that keeps reading its neighbour ----

  function Repeat(e: Event, n: nat): (events: seq<Event>)
    ensures |events| == n && forall i :: 0 <= i < n ==> events[i] == e
  {
    seq(n, _ => e)
  }

  lemma GateKeepsSkus(s: State, slot: int, reply: Reply, mode: TempMode)
    requires ReplyOutcome(s, slot, reply, mode) == GateReopened
    ensures var t := HandleReply(s, slot, reply, mode);
            |t.lanes| == |s.lanes| && forall i :: 0 <= i < |s.lanes| ==> t.lanes[i].sku == s.lanes[i].sku
  {
    hide DerivedTemp, Believe, HeldElsewhere, ReadInto;
  }

  lemma HeldDependsOnSkus(a: seq<Lane>, b: seq<Lane>, slot: int, sku: string)
    requires |a| == |b| && forall i :: 0 <= i < |a| ==> a[i].sku == b[i].sku
    ensures HeldElsewhere(a, slot, sku) ==> HeldElsewhere(b, slot, sku)
  {
    hide Key;
    if HeldElsewhere(a, slot, sku) {
      var other :| 0 <= other < |a| && other != slot && Key(a[other].sku) == Key(sku);
      assert Key(b[other].sku) == Key(sku);
    }
  }

  /** Six such reads in a row each reopen the gate; the seventh does not. */
  lemma {:induction false} NeighbourReads(s: State, slot: nat, reply: Reply, mode: TempMode, n: nat)
    requires slot < |s.lanes| && HeldElsewhere(s.lanes, slot, reply.sku) && Attributed(slot, reply)
    requires reply.version == 101 && !Garbage(reply, mode) && Retries(s, slot) + n <= 6
    ensures var t := Run(s, Repeat(ReplyEvent(slot, reply), n), mode);
            && Retries(t, slot) == Retries(s, slot) + n
            && ReplyOutcome(t, slot, reply, mode) == if Retries(s, slot) + n < 6 then GateReopened else GivenUp
    ensures n > 0 ==> !Run(s, Repeat(ReplyEvent(slot, reply), n), mode).lanes[slot].rfid
    decreases n
  {
    hide Garbage, Attributed, HeldElsewhere, HandleReply, ReplyOutcome;
    BelievedReplies(s, slot, reply, mode);
    var events := Repeat(ReplyEvent(slot, reply), n);
    if n > 0 {
      var t := HandleReply(s, slot, reply, mode);
      RefusedReplyKeeps(s, slot, reply, mode);
      GateKeepsSkus(s, slot, reply, mode);
      HeldDependsOnSkus(s.lanes, t.lanes, slot, reply.sku);
      assert events[1..] == Repeat(ReplyEvent(slot, reply), n - 1);
      NeighbourReads(t, slot, reply, mode, n - 1);
      assert n == 1 ==> events[1..] == [];
    }
  }

  // ---- How skus are compared ----

  lemma UpperKeepsTrimmed(s: string)
    requires Trimmed(s)
    ensures Trimmed(Upper(s)) && Upper(Upper(s)) == Upper(s)
  {
  }

  /** Padding and case do not tell skus apart. */
  lemma KeyIgnoresPaddingAndCase(a: string, s: string, b: string)
    requires Blank(a) && Blank(b) && Trimmed(s)
    ensures Key(a + Upper(s) + b) == Key(a + s + b) == Key(s)
  {
    UpperKeepsTrimmed(s);
    TrimDrops(a, Upper(s), b);
    TrimDrops(a, s, b);
    TrimDrops("", s, "");
    assert "" + s + "" == s;
  }

  /** Anything else does. */
  lemma KeyTellsApart(s: string, t: string)
    requires Trimmed(s) && Trimmed(t)
    ensures Key(s) == Key(t) <==> Upper(s) == Upper(t)
    ensures Key(s) == "" <==> s == ""
  {
    TrimDrops("", s, "");
    TrimDrops("", t, "");
    assert "" + s + "" == s && "" + t + "" == t;
  }

  /** A clean sku is one to seven digits, with or without SM in front, in any case and padding. */
  lemma CleanSkuIsNumber(a: string, s: string, b: string)
    requires Blank(a) && Blank(b) && Trimmed(s)
    ensures IsCleanSku(a + s + b)
            <==> exists d :: 1 <= |d| <= 7 && AllDigits(d) && (s == d || Upper(s) == "SM" + d)
  {
    TrimDrops(a, s, b);
    hide Trim;
    if |s| >= 2 {
      assert Upper(s)[..2] == Upper(s[..2]);
    }
    if IsCleanSku(a + s + b) {
      var d := if |s| >= 2 && Upper(s[..2]) == "SM" then s[2..] else s;
      assert AllDigits(d);
      assert d == s || Upper(s) == "SM" + d by {
        if d != s {
          UpperDigits(d);
          assert Upper(s) == Upper(s[..2]) + Upper(s[2..]);
        }
      }
    }
    if d :| 1 <= |d| <= 7 && AllDigits(d) && (s == d || Upper(s) == "SM" + d) {
      if s == d {
        assert IsDigit(s[0]) && Upper(s)[0] == s[0];
      } else {
        assert Upper(s)[2..] == d && Upper(s[..2]) == "SM";
        forall i | 0 <= i < |d|
          ensures UpperChar(s[2..][i]) == d[i]
        {
          assert Upper(s)[i + 2] == ("SM" + d)[i + 2];
        }
        UpperOfDigits(s[2..], d);
      }
    }
  }

  // ---- A fetched image ----

  /** Which bound of an image becomes heat, and when none does. */
  lemma RawTempExactly(fmt: string, tempMin: Option<Number>, tempMax: Option<Number>)
    ensures var t, lo, hi := RawTempToStore(fmt, tempMin, tempMax), IntOf(tempMin), IntOf(tempMax);
            && (fmt !in REAL_TAG_FORMATS ==> t.None?)
            && (fmt in REAL_TAG_FORMATS && hi.Some? && (lo.Some? ==> lo.value <= hi.value) ==>
                  t == (if 0 < hi.value < 500 then hi else None))
            && (fmt in REAL_TAG_FORMATS && hi.None? && lo.Some? ==> t == (if 0 < lo.value < 500 then lo else None))
            && (lo.Some? && hi.Some? && lo.value > hi.value ==> t.None?)
            && (lo.None? && hi.None? ==> t.None?)
  {
  }

  /** A foreign image that parsed writes its text and its gated temperature into its lane, and nothing else. */
  lemma ImageStores(s: State, slot: int, rec: TagRecord)
    ensures var t := ApplyImage(s, slot, Some(rec));
            && slot !in t.pending && t.retry == s.retry && |t.lanes| == |s.lanes|
            && (rec.format == "anycubic" ==> t.lanes == s.lanes)
            && (rec.format != "anycubic" && 0 <= slot < |s.lanes| ==>
                  var before, after := s.lanes[slot], t.lanes[slot];
                  var temp := RawTempToStore(rec.format, rec.tempMin, rec.tempMax);
                  && after.sku == (if rec.sku != "" then rec.sku else before.sku)
                  && after.brand == (if rec.brand != "" then rec.brand else before.brand)
                  && after.material == (if rec.material != "" then rec.material else before.material)
                  && after.temp == (if temp.Some? then Int(temp.value) else before.temp)
                  && after.extruder == before.extruder && after.hotbed == before.hotbed
                  && after.status == before.status && after.rfid == before.rfid)
            && forall k :: 0 <= k < |s.lanes| && k != slot ==> t.lanes[k] == s.lanes[k]
  {
    hide RawTempToStore;
  }

  /** An image that does not parse only ends the read. */
  lemma BadImageStoresNothing(s: State, slot: int)
    ensures ApplyImage(s, slot, None) == s.(pending := s.pending - {slot})
  {
  }

  // ---- A status frame ----

  /** Another slot's lane, read and retry count are left alone. */
  lemma ReportTouchesItsSlot(s: State, report: SlotReport, w: Setting, k: int)
    requires k != report.index
    ensures var t := ReportSlot(s, report, w);
            && |t.lanes| == |s.lanes| && (0 <= k < |s.lanes| ==> t.lanes[k] == s.lanes[k])
            && t.retry == s.retry && (k in t.pending <==> k in s.pending)
  {
    hide Trim;
  }

  predicate Forgotten(lane: Lane) { lane.sku == "" && lane.brand == "" && lane.extruder.None? && lane.hotbed.None? }

  predicate SameTag(a: Lane, b: Lane) {
    a.sku == b.sku && a.brand == b.brand && a.extruder == b.extruder && a.hotbed == b.hotbed
  }

  /** An empty slot forgets its tag; its material and heat survive only during a print. */
  lemma EmptiedLane(s: State, report: SlotReport, w: Setting)
    requires 0 <= report.index < |s.lanes| && report.status == Empty
    ensures var t := ReportSlot(s, report, w);
            var before, after := s.lanes[report.index], t.lanes[report.index];
            && Forgotten(after) && !after.rfid && after.status == Empty && report.index !in t.pending
            && (w.printing ==> after.material == before.material && after.temp == before.temp)
            && (!w.printing ==> after.material == "" && after.temp == Int(0))
  {
    hide Trim;
  }

  /** A ready slot: a swap to an untagged spool forgets the tag, a new tag starts one read, and gaps get defaults. */
  lemma ReadyLane(s: State, report: SlotReport, w: Setting)
    requires 0 <= report.index < |s.lanes| && report.status == Ready
    ensures var t := ReportSlot(s, report, w);
            var before, after := s.lanes[report.index], t.lanes[report.index];
            var swapped := before.status == Empty && report.rfid == NoInfo && before.rfid;
            var starts := w.sync && report.rfid == Identified && !before.rfid && report.index !in s.pending
                          && report.readerFree;
            var fills := (w.sync || report.rfid == Missing || report.rfid == NoInfo) && report.index !in t.pending;
            && after.status == Ready && (if swapped then Forgotten(after) else SameTag(after, before))
            && (after.rfid <==> starts || (before.rfid && !swapped))
            && (report.index in t.pending <==> starts || (report.index in s.pending && !swapped))
            && after.material == (if fills && Trim(before.material) == "" then "Unknown" else before.material)
            && after.temp == (if fills && before.temp.Value() <= 0.0 then Int(0) else before.temp)
  {
    hide Trim;
  }

  /** Any other status is only noted. */
  lemma OtherLane(s: State, report: SlotReport, w: Setting)
    requires 0 <= report.index < |s.lanes| && report.status == Other
    ensures ReportSlot(s, report, w)
            == s.(lanes := s.lanes[report.index := s.lanes[report.index].(status := Other)])
  {
    hide Trim;
  }

  /** A lane whose gate was reopened is read again at the next frame that shows its tag. */
  lemma ReopenedLaneIsReadAgain(s: State, slot: nat, reply: Reply, mode: TempMode, w: Setting)
    requires slot < |s.lanes| && ReplyOutcome(s, slot, reply, mode) == GateReopened && w.sync
    ensures var t := ReportSlot(HandleReply(s, slot, reply, mode), SlotReport(slot, Ready, Identified, true), w);
            t.lanes[slot].rfid && slot in t.pending
  {
    hide ReplyOutcome, HandleReply, ReportSlot;
    RefusedReplyKeeps(s, slot, reply, mode);
    ReadyLane(HandleReply(s, slot, reply, mode), SlotReport(slot, Ready, Identified, true), w);
  }

  /** Over any run, a stored bed range with integer bounds has its bounds in order. */
  lemma StoredBedsAreOrdered(s: State, events: seq<Event>, mode: TempMode, i: nat, lo: int, hi: int)
    requires HotbedsOrdered(s) && i < |Run(s, events, mode).lanes|
    requires Run(s, events, mode).lanes[i].hotbed == Some(Range(Some(Int(lo)), Some(Int(hi))))
    ensures lo <= hi
  {
    hide Run;
    RunKeepsHotbeds(s, events, mode);
  }
}
