/** NDEF framing of a tag image and the search for a JSON object inside it. */
module NdefFrame {
  import opened Wrappers
  import opened Octets

  type Bytes = seq<Octet>

  // ---- The TLV frame ----

  /** The declared payload length and where the payload starts. */
  function TlvLength(img: Bytes): (r: Option<(nat, nat)>) {
    if |img| < 2 || img[0] != 0x03 then None
    else if img[1] == 0xFF then
      if |img| < 4 then None else Some((0x100 * (img[2] as int) + img[3] as int, 4))
    else Some((img[1], 2))
  }

  /** The block header: one length byte, or the escape and two bytes, big end first. */
  function Header(length: nat, long: bool): (h: Bytes)
    requires length <= if long then 0xFFFF else 0xFE
    ensures |h| == if long then 4 else 2
  {
    if long then [0x03, 0xFF, length / 0x100, length % 0x100] else [0x03, length]
  }

  predicate Encodable(payload: Bytes, long: bool) { 1 <= |payload| <= if long then 0xFFFE else 0xFE }

  function Encode(payload: Bytes, long: bool): (img: Bytes)
    requires Encodable(payload, long)
    ensures |img| == |payload| + if long then 4 else 2
  {
    Header(|payload|, long) + payload
  }

  lemma TlvLengthInvertsEncode(payload: Bytes, long: bool, tail: Bytes)
    requires Encodable(payload, long)
    ensures var img := Encode(payload, long) + tail;
            var parsed := TlvLength(img);
            && parsed == Some((|payload|, if long then 4 else 2))
            && img[parsed.value.1..parsed.value.1 + parsed.value.0] == payload
  {
    var img, h := Encode(payload, long) + tail, Header(|payload|, long);
    assert img[0] == h[0] && img[1] == h[1];
    assert long ==> img[2] == h[2] && img[3] == h[3];
  }

  /** Any image whose declared payload is all there is an encoded payload with something after it. */
  lemma EncodeInvertsTlvLength(img: Bytes)
    requires TlvLength(img).Some?
    requires var (length, start) := TlvLength(img).value; 1 <= length <= 0xFFFE && start + length <= |img|
    ensures var (length, start) := TlvLength(img).value;
            var payload := img[start..start + length];
            Encodable(payload, start == 4) && img == Encode(payload, start == 4) + img[start + length..]
  {
    var (length, start) := TlvLength(img).value;
    assert img[..start] == Header(length, start == 4);
  }

  // ---- Searching for the first start that works ----

  /** The first value that at gives from position from on. */
  function FirstSome<J>(at: nat -> Option<J>, from: nat, n: nat): (v: Option<J>)
    decreases n - from
  {
    if from >= n then None else if at(from).Some? then at(from) else FirstSome(at, from + 1, n)
  }

  lemma {:induction false} FirstSomeSkips<J>(at: nat -> Option<J>, from: nat, next: nat, n: nat)
    requires from <= next <= n && forall s :: from <= s < next ==> at(s).None?
    ensures FirstSome(at, from, n) == FirstSome(at, next, n)
    decreases next - from
  {
    if from < next {
      FirstSomeSkips(at, from + 1, next, n);
    }
  }

  lemma {:induction false} FirstSomeIsLeast<J>(at: nat -> Option<J>, from: nat, n: nat, s: nat)
    requires from <= s < n && at(s).Some? && forall r :: from <= r < s ==> at(r).None?
    ensures FirstSome(at, from, n) == at(s)
  {
    FirstSomeSkips(at, from, s, n);
  }

  lemma {:induction false} FirstSomeNone<J>(at: nat -> Option<J>, from: nat, n: nat)
    ensures FirstSome(at, from, n).None? <==> forall s :: from <= s < n ==> at(s).None?
    decreases n - from
  {
    if from < n {
      FirstSomeNone(at, from + 1, n);
    }
  }

  // ---- Brace matching ----

  const OPEN: Octet := 0x7B
  const CLOSE: Octet := 0x7D
  const COMMA: Octet := 0x2C

  function Weight(c: Octet): int { if c == OPEN then 1 else if c == CLOSE then -1 else 0 }

  /** Open braces less closing braces. */
  function Balance(s: Bytes): int { if s == [] then 0 else Balance(s[..|s| - 1]) + Weight(s[|s| - 1]) }

  lemma BalanceStep(text: Bytes, start: nat, i: nat)
    requires start <= i < |text|
    ensures Balance(text[start..i + 1]) == Balance(text[start..i]) + Weight(text[i])
  {
    assert text[start..i + 1][..i - start] == text[start..i];
  }

  /** The closing brace that brings the depth to zero, from position i on. */
  function Closing(text: Bytes, i: nat, depth: int): (end: Option<nat>)
    ensures end.Some? ==> i <= end.value < |text| && text[end.value] == CLOSE
    decreases |text| - i
  {
    if i >= |text| then None
    else if text[i] == CLOSE && depth == 1 then Some(i)
    else Closing(text, i + 1, depth + Weight(text[i]))
  }

  /** The text from an open brace to e is balanced at e and nowhere earlier. */
  ghost predicate Matched(text: Bytes, start: nat, e: nat) {
    && start <= e < |text| && Balance(text[start..e + 1]) == 0
    && forall k :: start < k <= e ==> Balance(text[start..k]) > 0
  }

  lemma {:induction false} ClosingMatches(text: Bytes, start: nat, i: nat)
    requires start < i <= |text| && Balance(text[start..i]) > 0
    requires forall k :: start < k <= i ==> Balance(text[start..k]) > 0
    ensures forall e: nat :: Closing(text, i, Balance(text[start..i])) == Some(e) <==> Matched(text, start, e)
    decreases |text| - i
  {
    if i < |text| {
      BalanceStep(text, start, i);
      if text[i] == CLOSE && Balance(text[start..i]) == 1 {
        assert Matched(text, start, i);
      } else {
        ClosingMatches(text, start, i + 1);
      }
    }
  }

  /** From an open brace, the closing brace found is the one where the text first balances. */
  lemma ClosingIsFirstBalance(text: Bytes, start: nat)
    requires start < |text| && text[start] == OPEN
    ensures forall e: nat :: Closing(text, start, 0) == Some(e) <==> Matched(text, start, e)
  {
    BalanceStep(text, start, start);
    assert text[start..start] == [];
    ClosingMatches(text, start, start + 1);
  }

  // ---- The first object that parses ----

  /** loads is the JSON parser. */
  function ObjectAt<J>(text: Bytes, start: nat, loads: Bytes -> Option<J>): Option<J> {
    if start < |text| && text[start] == OPEN && Closing(text, start, 0).Some?
    then loads(text[start..Closing(text, start, 0).value + 1]) else None
  }

  function Objects<J>(text: Bytes, loads: Bytes -> Option<J>): nat -> Option<J> {
    (start: nat) => ObjectAt(text, start, loads)
  }

  function FirstObject<J>(text: Bytes, loads: Bytes -> Option<J>): Option<J> {
    FirstSome(Objects(text, loads), 0, |text|)
  }

  method FindOpen(text: Bytes, from: nat) returns (start: nat)
    requires from <= |text|
    ensures from <= start <= |text| && (start < |text| ==> text[start] == OPEN)
    ensures forall k :: from <= k < start ==> text[k] != OPEN
  {
    start := from;
    while start < |text| && text[start] != OPEN
      invariant from <= start <= |text| && forall k :: from <= k < start ==> text[k] != OPEN
    {
      start := start + 1;
    }
  }

  method TryObject<J>(text: Bytes, start: nat, loads: Bytes -> Option<J>) returns (v: Option<J>)
    requires start < |text| && text[start] == OPEN
    ensures v == ObjectAt(text, start, loads)
  {
    var depth, i := 0, start;
    while i < |text|
      invariant start <= i <= |text|
      invariant Closing(text, start, 0) == Closing(text, i, depth)
    {
      if text[i] == OPEN {
        depth := depth + 1;
      } else if text[i] == CLOSE {
        depth := depth - 1;
        if depth == 0 {
          return loads(text[start..i + 1]);
        }
      }
      i := i + 1;
    }
    v := None;
  }

  method FirstJson<J>(text: Bytes, loads: Bytes -> Option<J>) returns (v: Option<J>)
    ensures v == FirstObject(text, loads)
  {
    ghost var at := Objects(text, loads);
    var start := FindOpen(text, 0);
    FirstSomeSkips(at, 0, start, |text|);
    while start < |text|
      invariant start <= |text| && (start < |text| ==> text[start] == OPEN)
      invariant FirstObject(text, loads) == FirstSome(at, start, |text|)
      decreases |text| - start
    {
      v := TryObject(text, start, loads);
      if v.Some? {
        return;
      }
      var next := FindOpen(text, start + 1);
      FirstSomeSkips(at, start, next, |text|);
      start := next;
    }
    v := None;
  }

  /** From the open brace at start to e the text is matched, and it parses. */
  ghost predicate ParsesAt<J>(text: Bytes, start: nat, e: nat, loads: Bytes -> Option<J>) {
    start <= e < |text| && text[start] == OPEN && Matched(text, start, e) && loads(text[start..e + 1]).Some?
  }

  lemma ObjectAtParses<J>(text: Bytes, start: nat, e: nat, loads: Bytes -> Option<J>)
    requires ParsesAt(text, start, e, loads)
    ensures ObjectAt(text, start, loads) == loads(text[start..e + 1])
  {
    ClosingIsFirstBalance(text, start);
    hide Matched, Closing;
    assert Closing(text, start, 0) == Some(e);
  }

  lemma ObjectAtWitness<J>(text: Bytes, start: nat, loads: Bytes -> Option<J>) returns (e: nat)
    requires ObjectAt(text, start, loads).Some?
    ensures ParsesAt(text, start, e, loads)
  {
    ClosingIsFirstBalance(text, start);
    hide Matched, Closing;
    e := Closing(text, start, 0).value;
    assert Matched(text, start, e);
  }

  /** The object found is the parse of the matched text at the first open brace where that parses. */
  lemma FirstObjectIsLeast<J>(text: Bytes, loads: Bytes -> Option<J>, start: nat, e: nat)
    requires ParsesAt(text, start, e, loads)
    requires forall r: nat, f: nat :: r < start ==> !ParsesAt(text, r, f, loads)
    ensures FirstObject(text, loads) == loads(text[start..e + 1])
  {
    hide ObjectAt, Matched;
    forall r: nat | r < start
      ensures Objects(text, loads)(r).None?
    {
      if ObjectAt(text, r, loads).Some? {
        var f := ObjectAtWitness(text, r, loads);
      }
    }
    ObjectAtParses(text, start, e, loads);
    FirstSomeIsLeast(Objects(text, loads), 0, |text|, start);
  }

  /** Nothing is found exactly when no matched text parses. */
  lemma NoFirstObject<J>(text: Bytes, loads: Bytes -> Option<J>)
    ensures FirstObject(text, loads).None? <==> forall start: nat, e: nat :: !ParsesAt(text, start, e, loads)
  {
    hide ObjectAt;
    var at := Objects(text, loads);
    FirstSomeNone(at, 0, |text|);
    if start: nat, e: nat :| ParsesAt(text, start, e, loads) {
      ObjectAtParses(text, start, e, loads);
      assert at(start).Some?;
    }
    if start: nat :| start < |text| && at(start).Some? {
      var e := ObjectAtWitness(text, start, loads);
    }
  }

  // ---- Repairing a cut-off object ----

  function Closed(text: Bytes, start: nat, i: nat): Bytes
    requires start <= i <= |text|
  {
    text[start..i] + [CLOSE]
  }

  /** The last parse met when the scan goes on from position i at this depth. */
  function BestFrom<J>(text: Bytes, start: nat, i: nat, depth: int, best: Option<J>,
                       loads: Bytes -> Option<J>): Option<J>
    requires start <= i <= |text|
    decreases |text| - i
  {
    if i == |text| || (text[i] == CLOSE && depth == 1) then best
    else if text[i] == COMMA && depth == 1 then
      var cut := loads(Closed(text, start, i));
      BestFrom(text, start, i + 1, depth, if cut.Some? then cut else best, loads)
    else BestFrom(text, start, i + 1, depth + Weight(text[i]), best, loads)
  }

  function RepairAt<J>(text: Bytes, start: nat, loads: Bytes -> Option<J>, truthy: J -> bool): Option<J> {
    if start < |text| && text[start] == OPEN then
      var best := BestFrom(text, start, start, 0, None, loads);
      if best.Some? && truthy(best.value) then best else None
    else None
  }

  function Repairs<J>(text: Bytes, loads: Bytes -> Option<J>, truthy: J -> bool): nat -> Option<J> {
    (start: nat) => RepairAt(text, start, loads, truthy)
  }

  function FirstRepair<J>(text: Bytes, loads: Bytes -> Option<J>, truthy: J -> bool): Option<J> {
    FirstSome(Repairs(text, loads, truthy), 0, |text|)
  }

  method TryRepair<J>(text: Bytes, start: nat, loads: Bytes -> Option<J>) returns (best: Option<J>)
    requires start < |text| && text[start] == OPEN
    ensures best == BestFrom(text, start, start, 0, None, loads)
  {
    best := None;
    var depth, i := 0, start;
    while i < |text|
      invariant start <= i <= |text|
      invariant BestFrom(text, start, start, 0, None, loads) == BestFrom(text, start, i, depth, best, loads)
    {
      if text[i] == OPEN {
        depth := depth + 1;
      } else if text[i] == CLOSE {
        depth := depth - 1;
        if depth == 0 {
          break;
        }
      } else if text[i] == COMMA && depth == 1 {
        var cut := loads(text[start..i] + [CLOSE]);
        if cut.Some? {
          best := cut;
        }
      }
      i := i + 1;
    }
  }

  method RepairJson<J>(text: Bytes, loads: Bytes -> Option<J>, truthy: J -> bool) returns (v: Option<J>)
    ensures v == FirstRepair(text, loads, truthy)
  {
    ghost var at := Repairs(text, loads, truthy);
    var start := FindOpen(text, 0);
    FirstSomeSkips(at, 0, start, |text|);
    while start < |text|
      invariant start <= |text| && (start < |text| ==> text[start] == OPEN)
      invariant FirstRepair(text, loads, truthy) == FirstSome(at, start, |text|)
      decreases |text| - start
    {
      v := TryRepair(text, start, loads);
      if v.Some? && truthy(v.value) {
        return;
      }
      var next := FindOpen(text, start + 1);
      FirstSomeSkips(at, start, next, |text|);
      start := next;
    }
    v := None;
  }

  /** A comma of the object opened at start, before it closes, where cutting and closing it parses. */
  ghost predicate CutParses<J>(text: Bytes, start: nat, c: nat, loads: Bytes -> Option<J>) {
    && start <= c < |text| && text[c] == COMMA && Balance(text[start..c]) == 1
    && (forall k :: start < k <= c ==> Balance(text[start..k]) > 0)
    && loads(Closed(text, start, c)).Some?
  }

  /** Without a cut that parses from i on, the best so far stands. */
  lemma {:induction false} NoLaterCut<J>(text: Bytes, start: nat, i: nat, best: Option<J>, loads: Bytes -> Option<J>)
    requires start < i <= |text| && forall k :: start < k <= i ==> Balance(text[start..k]) > 0
    requires forall c: nat :: i <= c ==> !CutParses(text, start, c, loads)
    ensures BestFrom(text, start, i, Balance(text[start..i]), best, loads) == best
    decreases |text| - i
  {
    if i < |text| {
      BalanceStep(text, start, i);
      if text[i] != CLOSE || Balance(text[start..i]) != 1 {
        assert !CutParses(text, start, i, loads);
        NoLaterCut(text, start, i + 1, best, loads);
      }
    }
  }

  lemma {:induction false} LastCutWins<J>(text: Bytes, start: nat, i: nat, best: Option<J>,
                                          loads: Bytes -> Option<J>, last: nat)
    requires start < i <= last < |text| && forall k :: start < k <= i ==> Balance(text[start..k]) > 0
    requires CutParses(text, start, last, loads) && forall c: nat :: last < c ==> !CutParses(text, start, c, loads)
    ensures i < |text|
    ensures BestFrom(text, start, i, Balance(text[start..i]), best, loads) == loads(Closed(text, start, last))
    decreases last - i
  {
    BalanceStep(text, start, i);
    var cut := loads(Closed(text, start, i));
    var next := if text[i] == COMMA && Balance(text[start..i]) == 1 && cut.Some? then cut else best;
    if i < last {
      assert Balance(text[start..i + 1]) > 0;
      LastCutWins(text, start, i + 1, next, loads, last);
    } else {
      NoLaterCut(text, start, i + 1, next, loads);
    }
  }

  /** The repair keeps as many complete fields as parse: it cuts at the last comma where that works. */
  lemma RepairKeepsTheMost<J>(text: Bytes, start: nat, loads: Bytes -> Option<J>, last: nat)
    requires start < |text| && text[start] == OPEN
    requires CutParses(text, start, last, loads) && forall c: nat :: last < c ==> !CutParses(text, start, c, loads)
    ensures BestFrom(text, start, start, 0, None, loads) == loads(Closed(text, start, last))
  {
    BalanceStep(text, start, start);
    assert text[start..start] == [];
    LastCutWins(text, start, start + 1, None, loads, last);
  }

  lemma NothingToRepair<J>(text: Bytes, start: nat, loads: Bytes -> Option<J>)
    requires start < |text| && text[start] == OPEN && forall c: nat :: !CutParses(text, start, c, loads)
    ensures BestFrom(text, start, start, 0, None, loads) == None
  {
    BalanceStep(text, start, start);
    assert text[start..start] == [];
    NoLaterCut(text, start, start + 1, None, loads);
  }

  /** The repair found is the one at the first open brace whose best cut is truthy. */
  lemma FirstRepairIsLeast<J>(text: Bytes, loads: Bytes -> Option<J>, truthy: J -> bool, start: nat, last: nat)
    requires start < |text| && text[start] == OPEN
    requires CutParses(text, start, last, loads) && forall c: nat :: last < c ==> !CutParses(text, start, c, loads)
    requires truthy(loads(Closed(text, start, last)).value)
    requires forall r: nat :: r < start ==> RepairAt(text, r, loads, truthy).None?
    ensures FirstRepair(text, loads, truthy) == loads(Closed(text, start, last))
  {
    RepairKeepsTheMost(text, start, loads, last);
    hide CutParses, BestFrom;
    FirstSomeIsLeast(Repairs(text, loads, truthy), 0, |text|, start);
  }

  /** A start is no repair exactly when it is no brace, or no cut parses, or the last that does is empty. */
  lemma NoRepairAt<J>(text: Bytes, loads: Bytes -> Option<J>, truthy: J -> bool, start: nat)
    ensures RepairAt(text, start, loads, truthy).None?
            <==> !(start < |text| && text[start] == OPEN
                   && exists last: nat :: CutParses(text, start, last, loads)
                                          && (forall c: nat :: last < c ==> !CutParses(text, start, c, loads))
                                          && truthy(loads(Closed(text, start, last)).value))
  {
    hide BestFrom;
    if start < |text| && text[start] == OPEN {
      if c: nat :| CutParses(text, start, c, loads) {
        var last := LastCut(text, start, c, loads);
        RepairKeepsTheMost(text, start, loads, last);
      } else {
        NothingToRepair(text, start, loads);
      }
    }
  }

  lemma LastCut<J>(text: Bytes, start: nat, c: nat, loads: Bytes -> Option<J>) returns (last: nat)
    requires CutParses(text, start, c, loads)
    ensures CutParses(text, start, last, loads) && forall d: nat :: last < d ==> !CutParses(text, start, d, loads)
  {
    last := c;
    var i := c + 1;
    while i < |text|
      invariant i > last && CutParses(text, start, last, loads)
      invariant forall d: nat :: last < d < i ==> !CutParses(text, start, d, loads)
    {
      if CutParses(text, start, i, loads) {
        last := i;
      }
      i := i + 1;
    }
  }

  // ---- Intact images ----

  /** The payload parses, whole or repaired. */
  predicate Coherent<J>(payload: Bytes, loads: Bytes -> Option<J>, truthy: J -> bool) {
    FirstObject(payload, loads).Some? || FirstRepair(payload, loads, truthy).Some?
  }

  method NdefIsIntact<J>(img: Bytes, loads: Bytes -> Option<J>, truthy: J -> bool) returns (intact: bool)
    ensures intact == Intact(img, loads, truthy)
  {
    var parsed := TlvLength(img);
    if parsed.None? {
      return false;
    }
    var (length, start) := parsed.value;
    if length <= 0 || start + length > |img| {
      return false;
    }
    var payload := img[start..start + length];
    var whole := FirstJson(payload, loads);
    if whole.Some? {
      return true;
    }
    var repaired := RepairJson(payload, loads, truthy);
    intact := repaired.Some?;
  }

  predicate Intact<J>(img: Bytes, loads: Bytes -> Option<J>, truthy: J -> bool) {
    && TlvLength(img).Some?
    && var (length, start) := TlvLength(img).value;
       && length > 0 && start + length <= |img| && Coherent(img[start..start + length], loads, truthy)
  }

  /** Bytes after the payload never matter. */
  lemma IntactIgnoresTail<J>(payload: Bytes, long: bool, tail: Bytes, loads: Bytes -> Option<J>, truthy: J -> bool)
    requires Encodable(payload, long)
    ensures Intact(Encode(payload, long) + tail, loads, truthy) == Coherent(payload, loads, truthy)
  {
    hide Coherent, Encode;
    TlvLengthInvertsEncode(payload, long, tail);
  }

  /** A frame that lost any byte at its end is refused. */
  lemma TruncationIsRefused<J>(payload: Bytes, long: bool, k: nat, loads: Bytes -> Option<J>, truthy: J -> bool)
    requires Encodable(payload, long) && k < |Encode(payload, long)|
    ensures !Intact(Encode(payload, long)[..k], loads, truthy)
  {
    hide Coherent;
    var h, img := Header(|payload|, long), Encode(payload, long)[..k];
    assert forall j :: 0 <= j < |h| && j < k ==> img[j] == h[j];
  }

  /** An intact image of encodable length is an encoded coherent payload with something after it. */
  lemma IntactIsFramed<J>(img: Bytes, loads: Bytes -> Option<J>, truthy: J -> bool)
    returns (payload: Bytes, long: bool, tail: Bytes)
    requires Intact(img, loads, truthy) && TlvLength(img).value.0 <= 0xFFFE
    ensures Encodable(payload, long) && img == Encode(payload, long) + tail && Coherent(payload, loads, truthy)
  {
    hide Coherent, Encode;
    EncodeInvertsTlvLength(img);
    var (length, start) := TlvLength(img).value;
    payload, long, tail := img[start..start + length], start == 4, img[start + length..];
  }
}
