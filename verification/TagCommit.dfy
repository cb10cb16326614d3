/** Committing a decoded tag to two memory layouts: the background slot record and the live response. */
module TagCommit {
  import opened Wrappers
  import opened Octets
  import opened Edits

  type Half = x: int | 0 <= x < 0x1_0000
  type Word = x: int | 0 <= x < 0x1_0000_0000

  /** A 20-byte C string buffer, all of it. */
  type Buffer = s: Image | |s| == 20 witness seq(20, _ => 0)

  datatype Tag = Tag(version: Half, sku: Buffer, brand: Buffer, material: Buffer, color: Word,
                     tempMin: Half, tempMax: Half, bedMin: Half, bedMax: Half, diameter: Half, totalGrams: Word)

  // Offsets into the slot record.
  const STATUS: nat := 22
  const VERSION: nat := 26
  const SKU: nat := 28
  const BRAND: nat := 48
  const TYPE: nat := 68
  const COLOR: nat := 88
  const TEMP_MIN: nat := 104
  const TEMP_MAX: nat := 106
  const BED_MIN: nat := 124
  const BED_MAX: nat := 126
  const DIAMETER: nat := 128
  const TOTAL_G: nat := 132
  const RECORD_SIZE: nat := 136
  const RESPONSE_SIZE: nat := 144
  const LANE: nat := 20

  // ---- Values in memory ----

  function Le16(v: Half): (bytes: Image)
    ensures |bytes| == 2
  {
    [v % 0x100, v / 0x100]
  }

  function Le32(v: Word): (bytes: Image)
    ensures |bytes| == 4
  {
    [v % 0x100, v / 0x100 % 0x100, v / 0x1_0000 % 0x100, v / 0x100_0000]
  }

  function U16(m: Image, at: nat): int
    requires at + 2 <= |m|
  {
    var b0: int, b1: int := m[at], m[at + 1];
    b0 + 0x100 * b1
  }

  function U32(m: Image, at: nat): int
    requires at + 4 <= |m|
  {
    var b0: int, b1: int, b2: int, b3: int := m[at], m[at + 1], m[at + 2], m[at + 3];
    b0 + 0x100 * b1 + 0x1_0000 * b2 + 0x100_0000 * b3
  }

  /** The characters of a C string up to its terminator, at most max of them. */
  function Text(s: Image, max: nat): (t: Image)
    ensures |t| <= max && t <= s && 0 !in t
    ensures |t| < max && |t| < |s| ==> s[|t|] == 0
    decreases |s|
  {
    if max == 0 || s == [] || s[0] == 0 then [] else [s[0]] + Text(s[1..], max - 1)
  }

  /** What str_copy writes into a lane: the text that fits, and a terminator. */
  function Lane(s: Image): (bytes: Image)
    ensures 1 <= |bytes| <= LANE && bytes == Text(s, LANE - 1) + [0]
  {
    Text(s, LANE - 1) + [0]
  }

  /** The text found in a lane. */
  function TextAt(m: Image, at: nat): Image
    requires at + LANE <= |m|
  {
    Text(m[at..at + LANE], LANE)
  }

  // ---- The two layouts, as the writes made in order ----

  function RecordWrites(t: Tag): (w: seq<Edit>)
    ensures |w| == 12
  {
    [ Edit(STATUS, [2]), Edit(VERSION, Le16(t.version)),
      Edit(SKU, Lane(t.sku)), Edit(BRAND, Lane(t.brand)), Edit(TYPE, Lane(t.material)),
      Edit(COLOR, Le32(t.color)),
      Edit(TEMP_MIN, Le16(t.tempMin)), Edit(TEMP_MAX, Le16(t.tempMax)),
      Edit(BED_MIN, Le16(t.bedMin)), Edit(BED_MAX, Le16(t.bedMax)),
      Edit(DIAMETER, Le16(t.diameter)), Edit(TOTAL_G, Le32(t.totalGrams)) ]
  }

  /** A flag, and the colour only when there is one; the empty write stands for leaving the old bytes. */
  function ColorWrites(t: Tag): (w: seq<Edit>)
    ensures |w| == 2
  {
    if t.color != 0 then [Edit(48, Le32(1)), Edit(52, Le32(t.color))] else [Edit(48, Le32(0)), Edit(52, [])]
  }

  function ResponseWrites(t: Tag): (w: seq<Edit>)
    ensures |w| == 20
  {
    [ Edit(4, Le32(t.version)), Edit(8, Lane(t.sku)), Edit(27, [0]), Edit(28, Lane(t.material)), Edit(47, [0]),
      ColorWrites(t)[0], ColorWrites(t)[1],
      Edit(92, [1]), Edit(96, Le32(t.tempMin)), Edit(100, Le32(t.tempMax)), Edit(104, Le32(0)), Edit(108, Le32(0)),
      Edit(112, [1]), Edit(116, Le32(t.bedMin)), Edit(120, Le32(t.bedMax)),
      Edit(124, Le32(t.diameter)), Edit(128, Le32(0)), Edit(132, Le32(0)),
      Edit(136, Le32(t.totalGrams)), Edit(140, Le32(0)) ]
  }

  /** Where each write of the record starts and the bytes set aside for it. */
  const RECORD_SPANS: seq<(nat, nat)> := [
    (STATUS, 1), (VERSION, 2), (SKU, LANE), (BRAND, LANE), (TYPE, LANE), (COLOR, 4),
    (TEMP_MIN, 2), (TEMP_MAX, 2), (BED_MIN, 2), (BED_MAX, 2), (DIAMETER, 2), (TOTAL_G, 4)
  ]

  lemma RecordSpan(t: Tag, k: nat)
    requires k < 12
    ensures RecordWrites(t)[k].offset == RECORD_SPANS[k].0 && |RecordWrites(t)[k].bytes| <= RECORD_SPANS[k].1
    ensures RECORD_SPANS[k].0 + RECORD_SPANS[k].1 <= RECORD_SIZE
  {
    hide Lane, Le16, Le32;
    if k < 4 {
    } else if k < 8 {
    } else {
    }
  }

  lemma RecordSpansApart(j: nat, k: nat)
    requires j < k < 12
    ensures RECORD_SPANS[j].0 + RECORD_SPANS[j].1 <= RECORD_SPANS[k].0
  {
  }

  lemma RecordWritesFit(t: Tag, n: nat)
    requires n >= RECORD_SIZE
    ensures AllFit(RecordWrites(t), n) && AllApart(RecordWrites(t))
  {
    hide RecordWrites, RECORD_SPANS;
    forall k | 0 <= k < 12
      ensures RecordWrites(t)[k].Fits(n)
    {
      RecordSpan(t, k);
    }
    forall j, k | 0 <= j < k < 12
      ensures Apart(RecordWrites(t)[j], RecordWrites(t)[k])
    {
      RecordSpan(t, j);
      RecordSpan(t, k);
      RecordSpansApart(j, k);
    }
  }

  function CommitRecord(m: Image, t: Tag): (r: Image)
    requires |m| >= RECORD_SIZE
    ensures |r| == |m|
  {
    RecordWritesFit(t, |m|);
    Apply(m, RecordWrites(t))
  }

  /** A write of the record is still there at the end. */
  lemma RecordHolds(m: Image, t: Tag, k: nat)
    requires |m| >= RECORD_SIZE && k < 12
    ensures var w := RecordWrites(t)[k];
            w.offset + |w.bytes| <= |m| && CommitRecord(m, t)[w.offset..w.offset + |w.bytes|] == w.bytes
  {
    hide RecordWrites;
    RecordWritesFit(t, |m|);
    WriteHolds(m, RecordWrites(t), k);
  }

  lemma WriteHolds(m: Image, writes: seq<Edit>, k: nat)
    requires AllFit(writes, |m|) && k < |writes|
    requires forall j :: k < j < |writes| ==> Apart(writes[k], writes[j])
    ensures var w := writes[k];
            w.offset + |w.bytes| <= |m| && Apply(m, writes)[w.offset..w.offset + |w.bytes|] == w.bytes
  {
    hide Apply;
    var w := writes[k];
    assert w in writes;
    forall j | k < j < |writes|
      ensures Apart(w, writes[j])
    {
    }
    forall p | w.offset <= p < w.offset + |w.bytes|
      ensures Apply(m, writes)[p] == w.bytes[p - w.offset]
    {
      assert !Covered(writes[k + 1..], p);
      ApplyInside(m, writes, k, p);
    }
  }

  // ---- The response ----

  /** Where each write of the response starts, and how many of its bytes no later write touches. */
  const RESPONSE_SPANS: seq<(nat, nat)> := [
    (4, 4), (8, 19), (27, 1), (28, 19), (47, 1), (48, 4), (52, 4), (92, 1), (96, 4), (100, 4), (104, 4), (108, 4),
    (112, 1), (116, 4), (120, 4), (124, 4), (128, 4), (132, 4), (136, 4), (140, 4)
  ]

  lemma ResponseSpan(t: Tag, k: nat)
    requires k < 20
    ensures var w := ResponseWrites(t)[k];
            w.offset == RESPONSE_SPANS[k].0 && w.offset + |w.bytes| <= RESPONSE_SIZE
            && |w.bytes| <= RESPONSE_SPANS[k].1 + if k == 1 || k == 3 then 1 else 0
  {
    hide Lane, Le32;
    if k < 5 {
    } else if k < 8 {
    } else if k < 14 {
    } else {
    }
  }

  lemma ResponseSpansAscend(j: nat, k: nat)
    requires j < k < 20
    ensures RESPONSE_SPANS[j].0 + RESPONSE_SPANS[j].1 <= RESPONSE_SPANS[k].0
  {
    if j < 10 {
    } else {
    }
  }

  lemma ResponseWritesFit(t: Tag, n: nat)
    requires n >= RESPONSE_SIZE
    ensures AllFit(ResponseWrites(t), n)
  {
    hide ResponseWrites, RESPONSE_SPANS;
    forall k | 0 <= k < 20
      ensures ResponseWrites(t)[k].Fits(n)
    {
      ResponseSpan(t, k);
    }
  }

  function CommitResponse(m: Image, t: Tag): (r: Image)
    requires |m| >= RESPONSE_SIZE
    ensures |r| == |m|
  {
    ResponseWritesFit(t, |m|);
    Apply(m, ResponseWrites(t))
  }

  lemma ResponseHolds(m: Image, t: Tag, k: nat, p: nat)
    requires |m| >= RESPONSE_SIZE && k < 20
    requires ResponseWrites(t)[k].Covers(p) && p < RESPONSE_SPANS[k].0 + RESPONSE_SPANS[k].1
    ensures p < |m| && CommitResponse(m, t)[p] == ResponseWrites(t)[k].bytes[p - ResponseWrites(t)[k].offset]
  {
    hide ResponseWrites, RESPONSE_SPANS;
    var writes := ResponseWrites(t);
    ResponseWritesFit(t, |m|);
    forall j | k < j < 20
      ensures !writes[j].Covers(p)
    {
      ResponseSpan(t, j);
      ResponseSpansAscend(k, j);
    }
    assert !Covered(writes[k + 1..], p);
    ApplyInside(m, writes, k, p);
  }

  // ---- Reading back ----

  lemma {:induction false} TextOfTerminated(s: Image, t: Image, max: nat)
    requires |t| < max && |t| < |s| && t <= s && 0 !in t && s[|t|] == 0
    ensures Text(s, max) == t
    decreases |t|
  {
    if t != [] {
      assert s[0] == t[0] && t[0] in t;
      TextOfTerminated(s[1..], t[1..], max - 1);
      assert t == [t[0]] + t[1..];
    }
  }

  /** A lane whose text is followed by a terminator reads back as that text. */
  lemma LaneReadsBack(m: Image, at: nat, t: Image)
    requires at + LANE <= |m| && |t| < LANE && 0 !in t
    requires (forall i :: 0 <= i < |t| ==> m[at + i] == t[i]) && m[at + |t|] == 0
    ensures TextAt(m, at) == t
  {
    var s := m[at..at + LANE];
    assert s[..|t|] == t;
    TextOfTerminated(s, t, LANE);
  }

  lemma RecordLane(t: Tag, k: nat, src: Image)
    requires 2 <= k <= 4 && src == if k == 2 then t.sku else if k == 3 then t.brand else t.material
    ensures RecordWrites(t)[k] == Edit(RECORD_SPANS[k].0, Lane(src))
    ensures |RECORD_SPANS| == 12 && RECORD_SPANS[k].0 + LANE <= RECORD_SIZE
  {
    hide Lane, Le16, Le32;
  }

  lemma RecordText(m: Image, t: Tag, k: nat, src: Image)
    requires |m| >= RECORD_SIZE && 2 <= k <= 4
    requires src == if k == 2 then t.sku else if k == 3 then t.brand else t.material
    ensures RECORD_SPANS[k].0 + LANE <= RECORD_SIZE
    ensures TextAt(CommitRecord(m, t), RECORD_SPANS[k].0) == Text(src, LANE - 1)
  {
    hide CommitRecord, Text, RecordWrites, RECORD_SPANS;
    RecordLane(t, k, src);
    RecordHolds(m, t, k);
    LaneShows(CommitRecord(m, t), RECORD_SPANS[k].0, src);
  }

  lemma LaneShows(r: Image, at: nat, src: Image)
    requires at + LANE <= |r| && r[at..at + |Lane(src)|] == Lane(src)
    ensures TextAt(r, at) == Text(src, LANE - 1)
  {
    hide Text;
    var text := Text(src, LANE - 1);
    assert r[at..at + |text| + 1] == text + [0];
    forall i | 0 <= i < |text|
      ensures r[at + i] == text[i]
    {
      assert r[at + i] == r[at..at + |text| + 1][i];
    }
    assert r[at + |text|] == r[at..at + |text| + 1][|text|];
    LaneReadsBack(r, at, text);
  }

  /** The text lanes of the response and the byte after each. */
  lemma ResponseLanes(t: Tag)
    ensures ResponseWrites(t)[1] == Edit(8, Lane(t.sku)) && ResponseWrites(t)[2] == Edit(27, [0])
    ensures ResponseWrites(t)[3] == Edit(28, Lane(t.material)) && ResponseWrites(t)[4] == Edit(47, [0])
    ensures RESPONSE_SPANS[1] == (8, 19) && RESPONSE_SPANS[2] == (27, 1)
    ensures RESPONSE_SPANS[3] == (28, 19) && RESPONSE_SPANS[4] == (47, 1)
  {
    hide Lane, Le32, ColorWrites;
  }

  lemma ResponseText(m: Image, t: Tag, k: nat, src: Image)
    requires |m| >= RESPONSE_SIZE && (k == 1 || k == 3)
    requires src == if k == 1 then t.sku else t.material
    ensures TextAt(CommitResponse(m, t), if k == 1 then 8 else 28) == Text(src, LANE - 1)
  {
    hide CommitResponse, Text, ResponseWrites, RESPONSE_SPANS;
    var text, at, r := Text(src, LANE - 1), if k == 1 then 8 else 28, CommitResponse(m, t);
    ResponseLanes(t);
    forall i | 0 <= i < |text|
      ensures r[at + i] == text[i]
    {
      ResponseHolds(m, t, k, at + i);
    }
    ResponseHolds(m, t, if |text| == 19 then k + 1 else k, at + |text|);
    hide TextAt;
    LaneReadsBack(r, at, text);
  }

  lemma HalfReadsBack(m: Image, at: nat, v: Half)
    requires at + 2 <= |m| && m[at..at + 2] == Le16(v)
    ensures U16(m, at) == v
  {
    var b0: int, b1: int := m[at], m[at + 1];
    assert b0 == m[at..at + 2][0] == Le16(v)[0] == v % 0x100;
    assert b1 == m[at..at + 2][1] == Le16(v)[1] == v / 0x100;
  }

  lemma WordReadsBack(m: Image, at: nat, v: Word)
    requires at + 4 <= |m| && forall i :: 0 <= i < 4 ==> m[at + i] == Le32(v)[i]
    ensures U32(m, at) == v
  {
    var b0: int, b1: int, b2: int, b3: int := m[at], m[at + 1], m[at + 2], m[at + 3];
    assert b0 == m[at + 0] == Le32(v)[0] == v % 0x100;
    assert b1 == Le32(v)[1] == v / 0x100 % 0x100;
    assert b2 == Le32(v)[2] == v / 0x1_0000 % 0x100;
    assert b3 == Le32(v)[3] == v / 0x100_0000;
    FourBytes(v);
  }

  lemma FourBytes(v: nat)
    ensures v == v % 0x100 + 0x100 * (v / 0x100 % 0x100) + 0x1_0000 * (v / 0x1_0000 % 0x100)
                 + 0x100_0000 * (v / 0x100_0000)
  {
    var q1, q2, q3 := v / 0x100, v / 0x100 / 0x100, v / 0x100 / 0x100 / 0x100;
    assert v == 0x100 * q1 + v % 0x100 && q1 == 0x100 * q2 + q1 % 0x100 && q2 == 0x100 * q3 + q2 % 0x100;
    assert v / 0x1_0000 == q2;
    assert v / 0x100_0000 == q3;
  }

  lemma RecordHalf(m: Image, t: Tag, k: nat, v: Half)
    requires |m| >= RECORD_SIZE && k < 12 && RecordWrites(t)[k].bytes == Le16(v)
    ensures RecordWrites(t)[k].offset + 2 <= |m| && U16(CommitRecord(m, t), RecordWrites(t)[k].offset) == v
  {
    RecordHolds(m, t, k);
    HalfReadsBack(CommitRecord(m, t), RecordWrites(t)[k].offset, v);
  }

  lemma RecordWord(m: Image, t: Tag, k: nat, v: Word)
    requires |m| >= RECORD_SIZE && k < 12 && RecordWrites(t)[k].bytes == Le32(v)
    ensures RecordWrites(t)[k].offset + 4 <= |m| && U32(CommitRecord(m, t), RecordWrites(t)[k].offset) == v
  {
    hide RecordWrites, CommitRecord, Le32;
    RecordHolds(m, t, k);
    var r, at := CommitRecord(m, t), RecordWrites(t)[k].offset;
    forall i | 0 <= i < 4
      ensures r[at + i] == Le32(v)[i]
    {
      assert r[at + i] == r[at..at + 4][i];
    }
    WordReadsBack(r, at, v);
  }

  lemma ResponseWord(m: Image, t: Tag, k: nat, at: nat, v: Word)
    requires |m| >= RESPONSE_SIZE && k < 20 && ResponseWrites(t)[k] == Edit(at, Le32(v)) && RESPONSE_SPANS[k] == (at, 4)
    ensures at + 4 <= |m| && U32(CommitResponse(m, t), at) == v
  {
    hide ResponseWrites, RESPONSE_SPANS, CommitResponse, Le32;
    ResponseSpan(t, k);
    forall i | 0 <= i < 4
      ensures CommitResponse(m, t)[at + i] == Le32(v)[i]
    {
      ResponseHolds(m, t, k, at + i);
    }
    WordReadsBack(CommitResponse(m, t), at, v);
  }

  // ---- The stores, one at a time ----

  /** One more store keeps the memory equal to the writes made so far. */
  lemma OneMore(start: Image, now: Image, writes: seq<Edit>, k: nat)
    requires AllFit(writes, |start|) && k < |writes|
    requires now == Apply(start, writes[..k])
    ensures |now| == |start| && writes[k].Fits(|now|)
    ensures Put(now, writes[k]) == Apply(start, writes[..k + 1])
  {
    hide Apply, Put;
    var done, e := writes[..k], writes[k];
    assert e in writes;
    assert AllFit(done, |start|) by {
      forall d | d in done
        ensures d in writes
      {
      }
    }
    assert writes[..k + 1] == done + [e];
    hide AllFit;
    ApplyAppend(start, done, e);
  }

  method StrCopy(dst: array<Octet>, at: nat, src: Image, maxLen: nat)
    requires 1 <= maxLen && at + maxLen <= dst.Length && (|src| >= maxLen - 1 || 0 in src)
    modifies dst
    ensures dst[..] == Put(old(dst[..]), Edit(at, Text(src, maxLen - 1) + [0]))
  {
    hide Text, Put;
    ghost var before := dst[..];
    var i: nat := 0;
    while i < maxLen - 1 && src[i] != 0
      invariant i <= maxLen - 1 && i <= |src| && 0 !in src[..i]
      invariant forall p :: 0 <= p < dst.Length ==> dst[p] == if at <= p < at + i then src[p - at] else before[p]
    {
      assert src[..i + 1] == src[..i] + [src[i]];
      dst[at + i] := src[i];
      i := i + 1;
    }
    dst[at + i] := 0;
    TextIsPrefix(src, i, maxLen - 1);
    TextPut(before, dst[..], at, src[..i]);
  }

  lemma TextPut(before: Image, now: Image, at: nat, text: Image)
    requires |before| == |now| && at + |text| < |now| && now[at + |text|] == 0
    requires forall p :: 0 <= p < |now| && p != at + |text|
               ==> now[p] == if at <= p < at + |text| then text[p - at] else before[p]
    ensures now == Put(before, Edit(at, text + [0]))
  {
  }

  lemma {:induction false} TextIsPrefix(s: Image, i: nat, max: nat)
    requires i <= max && i <= |s| && 0 !in s[..i] && (i == max || (i < |s| && s[i] == 0))
    ensures Text(s, max) == s[..i]
    decreases i
  {
    if i > 0 {
      assert s[0] == s[..i][0];
      assert s[1..][..i - 1] == s[..i][1..];
      TextIsPrefix(s[1..], i - 1, max - 1);
      assert s[..i] == [s[0]] + s[1..][..i - 1];
    }
  }

  method Store8(m: array<Octet>, at: nat, v: Octet)
    requires at < m.Length
    modifies m
    ensures m[..] == Put(old(m[..]), Edit(at, [v]))
  {
    m[at] := v;
  }

  /** The processor stores little end first. */
  method Store16(m: array<Octet>, at: nat, v: Half)
    requires at + 2 <= m.Length
    modifies m
    ensures m[..] == Put(old(m[..]), Edit(at, Le16(v)))
  {
    m[at], m[at + 1] := v % 0x100, v / 0x100;
  }

  method Store32(m: array<Octet>, at: nat, v: Word)
    requires at + 4 <= m.Length
    modifies m
    ensures m[..] == Put(old(m[..]), Edit(at, Le32(v)))
  {
    m[at], m[at + 1], m[at + 2], m[at + 3] := v % 0x100, v / 0x100 % 0x100, v / 0x1_0000 % 0x100, v / 0x100_0000;
  }

  method WriteRecord(m: array<Octet>, t: Tag)
    requires m.Length >= RECORD_SIZE
    modifies m
    ensures m[..] == CommitRecord(old(m[..]), t)
  {
    hide Put, Apply, Lane, Le16, Le32, Text;
    ghost var start, w := m[..], RecordWrites(t);
    RecordWritesFit(t, m.Length);
    StartOfWrites(start, w);
    OneMore(start, m[..], w, 0);
    Store8(m, STATUS, 2);
    OneMore(start, m[..], w, 1);
    Store16(m, VERSION, t.version);
    OneMore(start, m[..], w, 2);
    StrCopy(m, SKU, t.sku, 20);
    OneMore(start, m[..], w, 3);
    StrCopy(m, BRAND, t.brand, 20);
    OneMore(start, m[..], w, 4);
    StrCopy(m, TYPE, t.material, 20);
    OneMore(start, m[..], w, 5);
    Store32(m, COLOR, t.color);
    OneMore(start, m[..], w, 6);
    Store16(m, TEMP_MIN, t.tempMin);
    OneMore(start, m[..], w, 7);
    Store16(m, TEMP_MAX, t.tempMax);
    OneMore(start, m[..], w, 8);
    Store16(m, BED_MIN, t.bedMin);
    OneMore(start, m[..], w, 9);
    Store16(m, BED_MAX, t.bedMax);
    OneMore(start, m[..], w, 10);
    Store16(m, DIAMETER, t.diameter);
    OneMore(start, m[..], w, 11);
    Store32(m, TOTAL_G, t.totalGrams);
    assert w[..12] == w;
  }

  lemma StartOfWrites(start: Image, writes: seq<Edit>)
    ensures Apply(start, writes[..0]) == start
  {
  }

  lemma PutNothing(m: Image, at: nat)
    requires at <= |m|
    ensures Put(m, Edit(at, [])) == m
  {
  }

  method WriteResponse(m: array<Octet>, t: Tag)
    requires m.Length >= RESPONSE_SIZE
    modifies m
    ensures m[..] == CommitResponse(old(m[..]), t)
  {
    hide Put, Apply, Lane, Le32, Text;
    ghost var start, w := m[..], ResponseWrites(t);
    ResponseWritesFit(t, m.Length);
    StartOfWrites(start, w);
    WriteResponseText(m, t, start);
    WriteResponseHeat(m, t, start);
    WriteResponseSpool(m, t, start);
    assert w[..20] == w;
  }

  lemma ResponseColor(t: Tag)
    ensures ResponseWrites(t)[0] == Edit(4, Le32(t.version))
    ensures ResponseWrites(t)[5] == Edit(48, Le32(if t.color != 0 then 1 else 0))
    ensures ResponseWrites(t)[6] == Edit(52, if t.color != 0 then Le32(t.color) else [])
  {
    hide Lane, Le32;
  }

  /** The version, the two text lanes and the colour. */
  method WriteResponseText(m: array<Octet>, t: Tag, ghost start: Image)
    requires m.Length >= RESPONSE_SIZE && m[..] == start
    requires AllFit(ResponseWrites(t), |start|)
    modifies m
    ensures m[..] == Apply(start, ResponseWrites(t)[..7])
  {
    hide Put, Apply, Lane, Le32, Text, ResponseWrites;
    ghost var w := ResponseWrites(t);
    ResponseLanes(t);
    ResponseColor(t);
    StartOfWrites(start, w);
    OneMore(start, m[..], w, 0);
    Store32(m, 4, t.version);
    OneMore(start, m[..], w, 1);
    StrCopy(m, 8, t.sku, 20);
    OneMore(start, m[..], w, 2);
    Store8(m, 27, 0);
    OneMore(start, m[..], w, 3);
    StrCopy(m, 28, t.material, 20);
    OneMore(start, m[..], w, 4);
    Store8(m, 47, 0);
    WriteResponseColor(m, t, start);
  }

  method WriteResponseColor(m: array<Octet>, t: Tag, ghost start: Image)
    requires m.Length >= RESPONSE_SIZE && |start| == m.Length
    requires AllFit(ResponseWrites(t), |start|) && m[..] == Apply(start, ResponseWrites(t)[..5])
    modifies m
    ensures m[..] == Apply(start, ResponseWrites(t)[..7])
  {
    hide Put, Apply, Lane, Le32, Text, ResponseWrites;
    ghost var w := ResponseWrites(t);
    ResponseColor(t);
    OneMore(start, m[..], w, 5);
    if t.color != 0 {
      Store32(m, 48, 1);
      OneMore(start, m[..], w, 6);
      Store32(m, 52, t.color);
    } else {
      Store32(m, 48, 0);
      OneMore(start, m[..], w, 6);
      PutNothing(m[..], 52);
    }
  }

  /** The nozzle and bed temperatures. */
  method WriteResponseHeat(m: array<Octet>, t: Tag, ghost start: Image)
    requires m.Length >= RESPONSE_SIZE && |start| == m.Length
    requires AllFit(ResponseWrites(t), |start|) && m[..] == Apply(start, ResponseWrites(t)[..7])
    modifies m
    ensures m[..] == Apply(start, ResponseWrites(t)[..15])
  {
    hide Put, Apply, Lane, Le32, Text;
    ghost var w := ResponseWrites(t);
    OneMore(start, m[..], w, 7);
    Store8(m, 92, 1);
    OneMore(start, m[..], w, 8);
    Store32(m, 96, t.tempMin);
    OneMore(start, m[..], w, 9);
    Store32(m, 100, t.tempMax);
    OneMore(start, m[..], w, 10);
    Store32(m, 104, 0);
    OneMore(start, m[..], w, 11);
    Store32(m, 108, 0);
    OneMore(start, m[..], w, 12);
    Store8(m, 112, 1);
    OneMore(start, m[..], w, 13);
    Store32(m, 116, t.bedMin);
    OneMore(start, m[..], w, 14);
    Store32(m, 120, t.bedMax);
  }

  /** The diameter and the weight. */
  method WriteResponseSpool(m: array<Octet>, t: Tag, ghost start: Image)
    requires m.Length >= RESPONSE_SIZE && |start| == m.Length
    requires AllFit(ResponseWrites(t), |start|) && m[..] == Apply(start, ResponseWrites(t)[..15])
    modifies m
    ensures m[..] == Apply(start, ResponseWrites(t)[..20])
  {
    hide Put, Apply, Lane, Le32, Text;
    ghost var w := ResponseWrites(t);
    OneMore(start, m[..], w, 15);
    Store32(m, 124, t.diameter);
    OneMore(start, m[..], w, 16);
    Store32(m, 128, 0);
    OneMore(start, m[..], w, 17);
    Store32(m, 132, 0);
    OneMore(start, m[..], w, 18);
    Store32(m, 136, t.totalGrams);
    OneMore(start, m[..], w, 19);
    Store32(m, 140, 0);
  }

  // ---- The two entry points ----

  datatype Parse = Native | Foreign(tag: Tag) | Unrecognised {
    function Code(): int {
      match this
      case Native => 0
      case Foreign(_) => 1
      case Unrecognised => -1
    }
  }

  /** The bytes the parser may look at. */
  predicate Readable(page: Image, bytes: int) { bytes < 140 || |page| >= 192 || |page| >= bytes }

  /** The format decoders see at most 192 bytes; decode stands for them. */
  function ParseTag(page: Image, bytes: int, decode: Image -> Option<Tag>): Parse
    requires Readable(page, bytes)
  {
    if bytes < 140 then Unrecognised
    else if page[0] == 0x7B && page[1] == 0x00 && page[2] == 0x65 && page[3] == 0x00 then Native
    else
      match decode(page[..if bytes > 192 then 192 else bytes])
      case None => Unrecognised
      case Some(tag) => Foreign(tag)
  }

  const SLOT_TABLE_END: nat := 0x20001748

  /** What the background decoder makes of a page; classic is what the MIFARE Classic decoder reads by UID. */
  function BackgroundParse(address: nat, page: Image, bytes: int, classic: Option<Tag>,
                           decode: Image -> Option<Tag>): Parse
    requires Readable(page, bytes)
  {
    if address >= SLOT_TABLE_END then Unrecognised
    else if bytes >= 140 then ParseTag(page, bytes, decode)
    else if classic.Some? then Foreign(classic.value)
    else Unrecognised
  }

  function Background(record: Image, parse: Parse): (r: (int, Image))
    requires |record| >= RECORD_SIZE
  {
    (parse.Code(), if parse.Foreign? then CommitRecord(record, parse.tag) else record)
  }

  function Live(response: Image, parse: Parse): (r: (int, Image))
    requires |response| >= RESPONSE_SIZE
  {
    (parse.Code(), if parse.Foreign? then CommitResponse(response, parse.tag) else response)
  }

  method DecodeNativeTag(address: nat, record: array<Octet>, page: Image, bytes: int,
                         classic: Option<Tag>, decode: Image -> Option<Tag>) returns (code: int)
    requires record.Length >= RECORD_SIZE && Readable(page, bytes)
    modifies record
    ensures (code, record[..]) == Background(old(record[..]), BackgroundParse(address, page, bytes, classic, decode))
    ensures code != 1 ==> record[..] == old(record[..])
  {
    hide CommitRecord;
    if address >= SLOT_TABLE_END {
      return -1;
    }
    if bytes < 140 {
      match classic {
        case None => return -1;
        case Some(tag) =>
          WriteRecord(record, tag);
          return 1;
      }
    }
    var res := ParseTag(page, bytes, decode);
    if !res.Foreign? {
      return res.Code();
    }
    WriteRecord(record, res.tag);
    code := 1;
  }

  method DecodeCmd68Tag(response: array<Octet>, page: Image, bytes: int, decode: Image -> Option<Tag>)
    returns (code: int)
    requires response.Length >= RESPONSE_SIZE && Readable(page, bytes)
    modifies response
    ensures (code, response[..]) == Live(old(response[..]), ParseTag(page, bytes, decode))
    ensures code != 1 ==> response[..] == old(response[..])
  {
    hide CommitResponse;
    var res := ParseTag(page, bytes, decode);
    if !res.Foreign? {
      return res.Code();
    }
    WriteResponse(response, res.tag);
    code := 1;
  }

  // ---- What the layouts promise ----

  predicate InRecordField(p: nat) {
    exists k: nat :: k < 12 && RECORD_SPANS[k].0 <= p < RECORD_SPANS[k].0 + RECORD_SPANS[k].1
  }

  lemma RecordElsewhereKept(m: Image, t: Tag, p: nat)
    requires RECORD_SIZE <= |m| && p < |m| && !InRecordField(p)
    ensures CommitRecord(m, t)[p] == m[p]
  {
    hide RecordWrites, RECORD_SPANS;
    RecordWritesFit(t, |m|);
    forall e | e in RecordWrites(t)
      ensures !e.Covers(p)
    {
      var k: nat :| k < 12 && RecordWrites(t)[k] == e;
      RecordSpan(t, k);
    }
    ApplyOutside(m, RecordWrites(t), p);
  }

  predicate Terminated(m: Image, at: nat)
    requires at + LANE <= |m|
  {
    0 in m[at..at + LANE]
  }

  lemma ShortTextIsTerminated(m: Image, at: nat)
    requires at + LANE <= |m| && |TextAt(m, at)| < LANE
    ensures Terminated(m, at)
  {
    assert m[at..at + LANE][|TextAt(m, at)|] == 0;
  }

  lemma RecordLanes(m: Image, t: Tag)
    requires |m| >= RECORD_SIZE
    ensures var r := CommitRecord(m, t);
            && TextAt(r, SKU) == Text(t.sku, 19) && TextAt(r, BRAND) == Text(t.brand, 19)
            && TextAt(r, TYPE) == Text(t.material, 19)
            && Terminated(r, SKU) && Terminated(r, BRAND) && Terminated(r, TYPE)
  {
    hide CommitRecord, TextAt, Text, Terminated;
    var r := CommitRecord(m, t);
    RecordText(m, t, 2, t.sku);
    RecordText(m, t, 3, t.brand);
    RecordText(m, t, 4, t.material);
    ShortTextIsTerminated(r, SKU);
    ShortTextIsTerminated(r, BRAND);
    ShortTextIsTerminated(r, TYPE);
  }

  lemma RecordNumbers(m: Image, t: Tag)
    requires |m| >= RECORD_SIZE
    ensures var r := CommitRecord(m, t);
            && U16(r, VERSION) == t.version && U32(r, COLOR) == t.color && U32(r, TOTAL_G) == t.totalGrams
            && U16(r, TEMP_MIN) == t.tempMin && U16(r, TEMP_MAX) == t.tempMax
            && U16(r, BED_MIN) == t.bedMin && U16(r, BED_MAX) == t.bedMax && U16(r, DIAMETER) == t.diameter
  {
    hide CommitRecord, Le16, Le32, Lane, U16, U32;
    RecordHalf(m, t, 1, t.version);
    RecordWord(m, t, 5, t.color);
    RecordHalf(m, t, 6, t.tempMin);
    RecordHalf(m, t, 7, t.tempMax);
    RecordHalf(m, t, 8, t.bedMin);
    RecordHalf(m, t, 9, t.bedMax);
    RecordHalf(m, t, 10, t.diameter);
    RecordWord(m, t, 11, t.totalGrams);
  }

  lemma ResponseHeat(m: Image, t: Tag)
    requires |m| >= RESPONSE_SIZE
    ensures var r := CommitResponse(m, t);
            && U32(r, 96) == t.tempMin && U32(r, 100) == t.tempMax && U32(r, 116) == t.bedMin && U32(r, 120) == t.bedMax
  {
    hide CommitResponse, Le32, Lane, U32;
    ResponseWord(m, t, 8, 96, t.tempMin);
    ResponseWord(m, t, 9, 100, t.tempMax);
    ResponseWord(m, t, 13, 116, t.bedMin);
    ResponseWord(m, t, 14, 120, t.bedMax);
  }

  lemma ResponseSpool(m: Image, t: Tag)
    requires |m| >= RESPONSE_SIZE
    ensures var r := CommitResponse(m, t);
            && U32(r, 4) == t.version && U32(r, 124) == t.diameter && U32(r, 136) == t.totalGrams
            && U32(r, 48) == (if t.color != 0 then 1 else 0) && (t.color != 0 ==> U32(r, 52) == t.color)
  {
    hide CommitResponse, Le32, Lane, U32;
    ResponseWord(m, t, 0, 4, t.version);
    ResponseWord(m, t, 15, 124, t.diameter);
    ResponseWord(m, t, 18, 136, t.totalGrams);
    ResponseWord(m, t, 5, 48, if t.color != 0 then 1 else 0);
    if t.color != 0 {
      ResponseWord(m, t, 6, 52, t.color);
    }
  }

  /** The colour a response shows: none unless it is flagged. */
  function ShownColor(m: Image): int
    requires |m| >= RESPONSE_SIZE
  {
    if U32(m, 48) == 1 then U32(m, 52) else 0
  }

  /** The two memories show one tag, by the offsets each layout documents. */
  predicate SameTag(record: Image, response: Image)
    requires |record| >= RECORD_SIZE && |response| >= RESPONSE_SIZE
  {
    && U16(record, 26) == U32(response, 4)
    && TextAt(record, 28) == TextAt(response, 8) && TextAt(record, 68) == TextAt(response, 28)
    && U32(record, 88) == ShownColor(response)
    && U16(record, 104) == U32(response, 96) && U16(record, 106) == U32(response, 100)
    && U16(record, 124) == U32(response, 116) && U16(record, 126) == U32(response, 120)
    && U16(record, 128) == U32(response, 124) && U32(record, 132) == U32(response, 136)
  }

  /**
   * The background worker and the live command tell the same story about a page that was read: the same
   * return code and, for a foreign tag, the same values, whatever either memory held before.
   */
  lemma EntryPointsAgree(address: nat, record: Image, response: Image, page: Image, bytes: int,
                         classic: Option<Tag>, decode: Image -> Option<Tag>)
    requires address < SLOT_TABLE_END && bytes >= 140 && Readable(page, bytes)
    requires |record| >= RECORD_SIZE && |response| >= RESPONSE_SIZE
    ensures var background := Background(record, BackgroundParse(address, page, bytes, classic, decode));
            var live := Live(response, ParseTag(page, bytes, decode));
            && background.0 == live.0
            && |background.1| == |record| && |live.1| == |response|
            && if live.0 == 1 then SameTag(background.1, live.1) else background.1 == record && live.1 == response
  {
    hide CommitRecord, CommitResponse, U16, U32, TextAt, Text, Terminated;
    var parse := ParseTag(page, bytes, decode);
    if parse.Foreign? {
      var t := parse.tag;
      RecordLanes(record, t);
      RecordNumbers(record, t);
      ResponseText(response, t, 1, t.sku);
      ResponseText(response, t, 3, t.material);
      ResponseHeat(response, t);
      ResponseSpool(response, t);
    }
  }

  // ---- The rest of both layouts ----

  /** The status byte says that the record is filled. */
  lemma RecordStatus(m: Image, t: Tag)
    requires |m| >= RECORD_SIZE
    ensures CommitRecord(m, t)[22] == 2
  {
    RecordHolds(m, t, 0);
    var r := CommitRecord(m, t);
    assert r[22] == r[22..23][0];
  }

  predicate InResponseField(p: nat) {
    exists k: nat :: k < 20 && RESPONSE_SPANS[k].0 <= p < RESPONSE_SPANS[k].0 + RESPONSE_SPANS[k].1
  }

  lemma ResponseElsewhereKept(m: Image, t: Tag, p: nat)
    requires RESPONSE_SIZE <= |m| && p < |m| && !InResponseField(p)
    ensures CommitResponse(m, t)[p] == m[p]
  {
    hide ResponseWrites;
    ResponseWritesFit(t, |m|);
    forall e | e in ResponseWrites(t)
      ensures !e.Covers(p)
    {
      var k: nat :| k < 20 && ResponseWrites(t)[k] == e;
      if e.Covers(p) {
        ResponseCovered(t, k, p);
      }
    }
    ApplyOutside(m, ResponseWrites(t), p);
  }

  /** A lane that fills its twenty bytes ends on the byte that is cleared after it. */
  lemma ResponseCovered(t: Tag, k: nat, p: nat)
    requires k < 20 && ResponseWrites(t)[k].Covers(p)
    ensures InResponseField(p)
  {
    hide ResponseWrites;
    ResponseSpan(t, k);
    assert RESPONSE_SPANS[1] == (8, 19) && RESPONSE_SPANS[2] == (27, 1);
    assert RESPONSE_SPANS[3] == (28, 19) && RESPONSE_SPANS[4] == (47, 1);
    var j := if (k == 1 && p == 27) || (k == 3 && p == 47) then k + 1 else k;
    assert RESPONSE_SPANS[j].0 <= p < RESPONSE_SPANS[j].0 + RESPONSE_SPANS[j].1;
  }

  lemma ResponseByte(m: Image, t: Tag, k: nat, at: nat, v: Octet)
    requires |m| >= RESPONSE_SIZE && k < 20 && ResponseWrites(t)[k] == Edit(at, [v]) && RESPONSE_SPANS[k] == (at, 1)
    ensures at < |m| && CommitResponse(m, t)[at] == v
  {
    hide ResponseWrites, RESPONSE_SPANS, CommitResponse;
    ResponseHolds(m, t, k, at);
  }

  /** Both ranges are marked as present, and what the tag does not carry is zero. */
  lemma ResponseFixed(m: Image, t: Tag)
    requires |m| >= RESPONSE_SIZE
    ensures var r := CommitResponse(m, t);
            && r[92] == 1 && r[112] == 1 && U32(r, 104) == 0 && U32(r, 108) == 0
            && U32(r, 128) == 0 && U32(r, 132) == 0 && U32(r, 140) == 0
  {
    hide CommitResponse, Le32, Lane, U32, ColorWrites;
    ResponseByte(m, t, 7, 92, 1);
    ResponseByte(m, t, 12, 112, 1);
    ResponseWord(m, t, 10, 104, 0);
    ResponseWord(m, t, 11, 108, 0);
    ResponseWord(m, t, 16, 128, 0);
    ResponseWord(m, t, 17, 132, 0);
    ResponseWord(m, t, 19, 140, 0);
  }

  /** Without a colour the old colour word stays, unflagged. */
  lemma AbsentColorKept(m: Image, t: Tag, p: nat)
    requires |m| >= RESPONSE_SIZE && t.color == 0 && 52 <= p < 56
    ensures CommitResponse(m, t)[p] == m[p]
  {
    hide RESPONSE_SPANS, ResponseWrites;
    ResponseWritesFit(t, |m|);
    ResponseColor(t);
    ColorSpan();
    forall e | e in ResponseWrites(t)
      ensures !e.Covers(p)
    {
      var k: nat :| k < 20 && ResponseWrites(t)[k] == e;
      ResponseSpan(t, k);
      if k < 6 {
        ResponseSpansAscend(k, 6);
      } else if k > 6 {
        ResponseSpansAscend(6, k);
      }
    }
    ApplyOutside(m, ResponseWrites(t), p);
  }

  lemma ColorSpan()
    ensures |RESPONSE_SPANS| == 20 && RESPONSE_SPANS[6] == (52, 4)
    ensures RESPONSE_SPANS[1] == (8, 19) && RESPONSE_SPANS[3] == (28, 19)
  {
  }

  // ---- What the parser looks at ----

  /** Too few bytes, then the native magic, then the decoders decide; and none of them sees more than 192 bytes. */
  lemma ParseByLengthAndMagic(page: Image, bytes: int, decode: Image -> Option<Tag>)
    requires Readable(page, bytes)
    ensures bytes < 140 ==> ParseTag(page, bytes, decode).Code() == -1
    ensures bytes >= 140 && page[..4] == [0x7B, 0x00, 0x65, 0x00] ==> ParseTag(page, bytes, decode).Code() == 0
    ensures bytes >= 140 && page[..4] != [0x7B, 0x00, 0x65, 0x00] ==>
              var seen := page[..if bytes > 192 then 192 else bytes];
              ParseTag(page, bytes, decode) == if decode(seen).Some? then Foreign(decode(seen).value) else Unrecognised
  {
    if bytes >= 140 {
      assert page[..4] == [page[0], page[1], page[2], page[3]];
    }
  }

  /** A short read falls back to the tag's UID, and a record outside the slot table is never touched. */
  lemma BackgroundFallsBack(address: nat, record: Image, page: Image, bytes: int, classic: Option<Tag>,
                            decode: Image -> Option<Tag>)
    requires Readable(page, bytes) && |record| >= RECORD_SIZE
    ensures var r := Background(record, BackgroundParse(address, page, bytes, classic, decode));
            && (address >= 0x2000_1748 ==> r == (-1, record))
            && (address < 0x2000_1748 && bytes < 140 ==>
                  r == if classic.Some? then (1, CommitRecord(record, classic.value)) else (-1, record))
  {
    hide CommitRecord;
  }
}
