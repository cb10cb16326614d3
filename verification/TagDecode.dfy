/** Decoding a JSON tag on chip: from the bytes of its pages to both memory layouts, and on to the driver. */
module TagDecode {
  import opened Wrappers
  import opened Octets
  import opened Text
  import opened TagJson
  import opened TagFields
  import TC = TagCommit
  import Lanes = LaneInventory

  type Image = seq<Octet>

  // ---- Bytes and characters ----

  function AsText(page: Image): (s: string)
    ensures |s| == |page|
  {
    seq(|page|, i requires 0 <= i < |page| => page[i] as char)
  }

  function AsBytes(s: string): (b: Image)
    ensures |b| == |s|
  {
    seq(|s|, i requires 0 <= i < |s| => s[i] as int % 0x100)
  }

  // ---- Words in the page ----

  predicate WordAt(s: string, i: nat, word: string) { i + |word| <= |s| && SameNoCase(s[i..i + |word|], word) }

  predicate Contains(s: string, word: string) { word != "" && exists i :: 0 <= i <= |s| && WordAt(s, i, word) }

  /** The first position of a word in any case, or -1. */
  method FindSubstr(s: string, word: string) returns (pos: int)
    ensures pos >= 0 <==> Contains(s, word)
    ensures pos >= 0 ==> WordAt(s, pos, word) && forall i: nat :: i < pos ==> !WordAt(s, i, word)
  {
    hide SameNoCase;
    if word == "" || |s| < |word| {
      return -1;
    }
    for i := 0 to |s| - |word| + 1
      invariant forall j: nat :: j < i ==> !WordAt(s, j, word)
    {
      var same := Compare(s, i, word);
      if same {
        assert WordAt(s, i, word);
        return i;
      }
    }
    pos := -1;
  }

  // ---- The JSON decoder ----

  const BRAND_KEYS: seq<string> := ["brand", "manufacturer", "vendor"]
  const TYPE_KEYS: seq<string> := ["material", "type", "filament_type"]
  const COLOR_KEYS: seq<string> := ["color_hex", "color", "colour", "hex"]
  const TEMP_MIN_KEYS: seq<string> := ["temp_min", "min_temp", "extruder_min"]
  const TEMP_MAX_KEYS: seq<string> := ["temp_max", "max_temp", "extruder_max"]
  const BED_MIN_KEYS: seq<string> := ["bed_min", "bed_temp_min"]
  const BED_MAX_KEYS: seq<string> := ["bed_max", "bed_temp_max"]
  const DIAMETER_KEYS: seq<string> := ["diameter"]

  const JSON_VERSION: nat := 0x0101

  /** The number of the first of the keys, from the k-th on, that has one; zero when none has. */
  function FirstNumber(s: string, keys: seq<string>, k: nat): (n: nat)
    requires k <= |keys|
    ensures n < 0x1_0000
    decreases |keys| - k
  {
    if k == |keys| then 0
    else if Uint16Value(s, keys[k]).Some? then Uint16Value(s, keys[k]).value
    else FirstNumber(s, keys, k + 1)
  }

  method NumberOf(s: string, keys: seq<string>) returns (n: nat)
    ensures n == FirstNumber(s, keys, 0)
  {
    hide Uint16Value;
    for k := 0 to |keys|
      invariant FirstNumber(s, keys, 0) == FirstNumber(s, keys, k)
    {
      var found := JsonExtractUint16(s, keys[k]);
      if found.Some? {
        return found.value;
      }
    }
    n := 0;
  }

  /** Temperatures as given, or those of the material when either is missing. */
  function Range(lo: nat, hi: nat, material: string, bed: bool): (r: (nat, nat))
    requires lo < 0x1_0000 && hi < 0x1_0000
    ensures r.0 < 0x1_0000 && r.1 < 0x1_0000
    ensures lo != 0 && hi != 0 ==> r == (lo, hi)
  {
    if lo != 0 && hi != 0 then (lo, hi)
    else if Contains(material, "petg") then if bed then (70, 85) else (230, 250)
    else if Contains(material, "abs") then if bed then (90, 110) else (240, 260)
    else if Contains(material, "tpu") then if bed then (30, 60) else (210, 230)
    else if bed then (50, 60) else (200, 220)
  }

  /** A 20-byte text field of the tag record, zeroed before the text is copied in. */
  function Field(text: string): (b: TC.Buffer) { AsBytes(Padded(Cut(text, 20), 20)) }

  function BrandOf(s: string): string {
    var v := UpToNul(FirstValue(s, BRAND_KEYS, 0, 24));
    if v != "" then v else if Contains(s, "filaman") then "FilaMan" else "OpenSpool"
  }

  function TypeOf(s: string): string {
    var v := UpToNul(FirstValue(s, TYPE_KEYS, 0, 24));
    if v != "" then v else "PLA"
  }

  /** The first hash sign with six digits, from position i on. */
  function ScannedColor(s: string, i: nat): (c: int)
    ensures 0 <= c < 0x1_0000_0000
    decreases |s| - i
  {
    if i >= |s| then 0 else if HashColorAt(s, i) then ColorAt(s, i + 1) else ScannedColor(s, i + 1)
  }

  lemma {:induction false} ScannedColorIs(s: string, i: nat, at: nat)
    requires i <= at && HashColorAt(s, at) && forall j: nat :: i <= j < at ==> !HashColorAt(s, j)
    ensures ScannedColor(s, i) == ColorAt(s, at + 1)
    decreases at - i
  {
    if i < at {
      ScannedColorIs(s, i + 1, at);
    }
  }

  lemma {:induction false} NoScannedColor(s: string, i: nat)
    requires forall j: nat :: !HashColorAt(s, j)
    ensures ScannedColor(s, i) == 0
    decreases |s| - i
  {
    if i < |s| {
      NoScannedColor(s, i + 1);
    }
  }

  function ColorOf(s: string): (c: int)
    ensures 0 <= c < 0x1_0000_0000
  {
    var c := HexColor(UpToNul(FirstValue(s, COLOR_KEYS, 0, 16)));
    if c != 0 then c else ScannedColor(s, 0)
  }

  function DiameterOf(s: string): (d: nat)
    ensures d < 0x1_0000
  {
    var d := FirstNumber(s, DIAMETER_KEYS, 0);
    if 100 < d < 300 then d else 175
  }

  /** The tag a JSON page is decoded to. */
  function JsonTag(s: string): TC.Tag {
    var material := Padded(FirstValue(s, TYPE_KEYS, 0, 24), 24);
    var nozzle := Range(FirstNumber(s, TEMP_MIN_KEYS, 0), FirstNumber(s, TEMP_MAX_KEYS, 0), material, false);
    var bed := Range(FirstNumber(s, BED_MIN_KEYS, 0), FirstNumber(s, BED_MAX_KEYS, 0), material, true);
    TC.Tag(JSON_VERSION, Field(TagSku(s)), Field(BrandOf(s)), Field(TypeOf(s)), ColorOf(s),
           nozzle.0, nozzle.1, bed.0, bed.1, DiameterOf(s), 1000)
  }

  method DecodeJsonSpool(s: string) returns (tag: TC.Tag)
    ensures tag == JsonTag(s)
  {
    hide TagSku, FirstValue, FirstNumber, HexColor, UpToNul, Padded, Field, Contains, Range, ScannedColor;
    var sku := DecodeSku(s);
    var brandTmp := new char[24](_ => '\0');
    var brand := Extract(s, BRAND_KEYS, brandTmp);
    if brand == "" {
      var pos := FindSubstr(s, "filaman");
      brand := if pos >= 0 then "FilaMan" else "OpenSpool";
    }
    var typeTmp := new char[24](_ => '\0');
    var material := Extract(s, TYPE_KEYS, typeTmp);
    if material == "" {
      material := "PLA";
    }
    var color := DecodeColor(s);
    var tmin := NumberOf(s, TEMP_MIN_KEYS);
    var tmax := NumberOf(s, TEMP_MAX_KEYS);
    var bmin := NumberOf(s, BED_MIN_KEYS);
    var bmax := NumberOf(s, BED_MAX_KEYS);
    tmin, tmax := DefaultRange(tmin, tmax, typeTmp[..], false);
    bmin, bmax := DefaultRange(bmin, bmax, typeTmp[..], true);
    var diameter := NumberOf(s, DIAMETER_KEYS);
    tag := TC.Tag(JSON_VERSION, Field(sku), Field(brand), Field(material), color, tmin, tmax, bmin, bmax,
                  if 100 < diameter < 300 then diameter else 175, 1000);
  }

  /** The value of the first of the keys that has one goes into the zeroed buffer; its text is returned. */
  method Extract(s: string, keys: seq<string>, tmp: array<char>) returns (text: string)
    requires tmp.Length >= 1 && forall i :: 0 <= i < tmp.Length ==> tmp[i] == '\0'
    modifies tmp
    ensures tmp[..] == Padded(FirstValue(s, keys, 0, tmp.Length), tmp.Length)
    ensures text == UpToNul(FirstValue(s, keys, 0, tmp.Length))
  {
    hide FirstValue, Padded, UpToNul;
    ZeroesArePadding(tmp[..]);
    var found := FirstKey(s, keys, tmp);
    UpToNulOfPadded(FirstValue(s, keys, 0, tmp.Length), tmp.Length);
    text := CopyText(tmp, tmp.Length);
  }

  method DecodeColor(s: string) returns (color: int)
    ensures color == ColorOf(s)
  {
    hide FirstValue, HexColor, UpToNul, Padded, ColorAt;
    var colorTmp := new char[16](_ => '\0');
    var text := Extract(s, COLOR_KEYS, colorTmp);
    color := ParseHexColor(text);
    if color == 0 {
      color := ScanForHexColor(s);
      if at: nat :| HashColorAt(s, at) && color == ColorAt(s, at + 1)
                    && forall j: nat :: j < at ==> !HashColorAt(s, j) {
        ScannedColorIs(s, 0, at);
      } else {
        NoScannedColor(s, 0);
      }
    }
  }

  method DefaultRange(lo: nat, hi: nat, material: string, bed: bool) returns (min: nat, max: nat)
    requires lo < 0x1_0000 && hi < 0x1_0000
    ensures (min, max) == Range(lo, hi, material, bed)
  {
    hide Contains;
    if lo != 0 && hi != 0 {
      return lo, hi;
    }
    var petg := FindSubstr(material, "petg");
    if petg >= 0 {
      min, max := if bed then 70 else 230, if bed then 85 else 250;
      return;
    }
    var abs := FindSubstr(material, "abs");
    if abs >= 0 {
      min, max := if bed then 90 else 240, if bed then 110 else 260;
      return;
    }
    var tpu := FindSubstr(material, "tpu");
    if tpu >= 0 {
      min, max := if bed then 30 else 210, if bed then 60 else 230;
    } else {
      min, max := if bed then 50 else 200, if bed then 60 else 220;
    }
  }

  // ---- The formats ----

  const BRAND_WORDS: seq<string> := [
    "prusament", "prusa research", "creality", "hyper pla", "cr-pla", "cr-petg", "cr-abs", "cr-tpu"
  ]
  const JSON_WORDS: seq<string> := ["{", "application/json", "openspool", "filaman", "openprinttag"]

  predicate AnyWord(s: string, words: seq<string>) { exists w :: w in words && Contains(s, w) }

  /** How a page that is not native is decoded; branded stands for the two decoders of a maker's own format. */
  function DecodeForeign(s: string, branded: string -> TC.Tag): Option<TC.Tag> {
    if AnyWord(s, BRAND_WORDS) then Some(branded(s))
    else if AnyWord(s, JSON_WORDS) || '{' in s then Some(JsonTag(s))
    else None
  }

  function Decoder(branded: string -> TC.Tag): Image -> Option<TC.Tag> {
    (page: Image) => DecodeForeign(AsText(page), branded)
  }

  /** A page the JSON decoder gets: long enough, neither native nor of a maker's own format. */
  predicate IsJsonPage(page: Image, bytes: int) {
    && TC.Readable(page, bytes) && bytes >= 140
    && page[..4] != [0x7B, 0x00, 0x65, 0x00]
    && var s := Seen(page, bytes);
       !AnyWord(s, BRAND_WORDS) && (AnyWord(s, JSON_WORDS) || '{' in s)
  }

  /** The text the decoders see. */
  function Seen(page: Image, bytes: int): string
    requires TC.Readable(page, bytes) && bytes >= 140
  {
    AsText(page[..if bytes > 192 then 192 else bytes])
  }

  // ---- What was printed on the tag is what both layouts hold ----

  /** The first member of this key holds this text in quotes. */
  ghost predicate PrintsText(s: string, key: string, val: string) {
    exists pre, printed, ws1, ws2, suf :: TextMember(s, key, val, pre, printed, ws1, ws2, suf)
  }

  ghost predicate TextMember(s: string, key: string, val: string,
                             pre: string, printed: string, ws1: string, ws2: string, suf: string) {
    && s == pre + Member(printed, ws1, ws2, Quoted(val)) + suf
    && AllIn(ws1, BEFORE_COLON) && AllIn(ws2, BLANKS) && NoneIn(val, QUOTES) && FirstMember(pre, printed, key, s)
  }

  /** The first member of this key holds this number. */
  ghost predicate PrintsDecimal(s: string, key: string, n: nat) {
    exists pre, printed, ws1, ws2, suf :: NumberMember(s, key, n, pre, printed, ws1, ws2, suf)
  }

  ghost predicate NumberMember(s: string, key: string, n: nat,
                               pre: string, printed: string, ws1: string, ws2: string, suf: string) {
    && s == pre + Member(printed, ws1, ws2, Decimal(n)) + suf
    && AllIn(ws1, BEFORE_COLON) && AllIn(ws2, BEFORE_NUMBER) && (suf != "" ==> !IsDigit(suf[0]))
    && FirstMember(pre, printed, key, s)
  }

  lemma PrintedText(s: string, keys: seq<string>, val: string, size: nat)
    requires keys != [] && PrintsText(s, keys[0], val) && 0 < |val| < size
    ensures FirstValue(s, keys, 0, size) == val
  {
    hide TextMember, StringValue;
    var pre, printed, ws1, ws2, suf :| TextMember(s, keys[0], val, pre, printed, ws1, ws2, suf);
    TextMemberValue(s, keys[0], val, pre, printed, ws1, ws2, suf);
  }

  lemma TextMemberValue(s: string, key: string, val: string,
                        pre: string, printed: string, ws1: string, ws2: string, suf: string)
    requires TextMember(s, key, val, pre, printed, ws1, ws2, suf)
    ensures StringValue(s, key) == Some(val)
  {
    hide Member, FirstMember, AllIn, NoneIn, Quoted, StringValue;
    StringUndoesPrint(pre, printed, key, ws1, ws2, val, suf);
  }

  lemma PrintedNumber(s: string, keys: seq<string>, n: nat)
    requires keys != [] && PrintsDecimal(s, keys[0], n) && n <= 65535
    ensures FirstNumber(s, keys, 0) == n
  {
    hide NumberMember, Uint16Value;
    var pre, printed, ws1, ws2, suf :| NumberMember(s, keys[0], n, pre, printed, ws1, ws2, suf);
    NumberMemberValue(s, keys[0], n, pre, printed, ws1, ws2, suf);
  }

  lemma NumberMemberValue(s: string, key: string, n: nat,
                          pre: string, printed: string, ws1: string, ws2: string, suf: string)
    requires NumberMember(s, key, n, pre, printed, ws1, ws2, suf)
    ensures Uint16Value(s, key) == Some(n % 0x1_0000)
  {
    hide Member, FirstMember, AllIn, Decimal, Uint16Value;
    NumberUndoesPrint(pre, printed, key, ws1, ws2, n, suf);
  }

  /** The first sku member holds the number n, quoted or bare. */
  ghost predicate PrintsSku(s: string, n: nat) {
    exists pre, printed, ws1, ws2, text, suf :: SkuMember(s, n, pre, printed, ws1, ws2, text, suf)
  }

  ghost predicate SkuMember(s: string, n: nat,
                            pre: string, printed: string, ws1: string, ws2: string, text: string, suf: string) {
    && s == pre + Member(printed, ws1, ws2, text) + suf
    && AllIn(ws1, BEFORE_COLON) && AllIn(ws2, BLANKS) && PrintsNumber(text, n, suf)
    && FirstMember(pre, printed, "sku", s)
  }

  lemma PrintedSku(s: string, n: nat)
    requires PrintsSku(s, n) && |Decimal(n)| <= 17
    ensures TagSku(s) == "SM" + Decimal(n)
  {
    hide SkuMember, TagSku, Decimal;
    var pre, printed, ws1, ws2, text, suf :| SkuMember(s, n, pre, printed, ws1, ws2, text, suf);
    SkuMemberValue(s, n, pre, printed, ws1, ws2, text, suf);
  }

  lemma SkuMemberValue(s: string, n: nat,
                       pre: string, printed: string, ws1: string, ws2: string, text: string, suf: string)
    requires SkuMember(s, n, pre, printed, ws1, ws2, text, suf) && |Decimal(n)| <= 17
    ensures TagSku(s) == "SM" + Decimal(n)
  {
    hide Member, FirstMember, AllIn, PrintsNumber, Decimal, TagSku;
    NumericSku(pre, printed, ws1, ws2, text, n, suf);
  }

  /** Text without NUL or characters beyond a byte is what its field shows, cut to nineteen characters. */
  lemma FieldShows(text: string)
    requires forall i :: 0 <= i < |text| ==> 0 < text[i] as int < 0x100
    ensures TC.Text(Field(text), TC.LANE - 1) == AsBytes(Cut(text, 20))
  {
    hide TC.Text;
    var f, cut := Field(text), Cut(text, 20);
    assert f[..|cut|] == AsBytes(cut);
    TC.TextIsPrefix(f, |cut|, TC.LANE - 1);
  }

  lemma SkuShows(n: nat)
    requires |Decimal(n)| <= 17
    ensures TC.Text(Field("SM" + Decimal(n)), TC.LANE - 1) == AsBytes("SM" + Decimal(n))
  {
    var sku := "SM" + Decimal(n);
    forall i | 0 <= i < |sku|
      ensures 0 < sku[i] as int < 0x100
    {
      assert i >= 2 ==> IsDigit(Decimal(n)[i - 2]);
    }
    hide Field, TC.Text;
    FieldShows(sku);
    assert Cut(sku, 20) == sku;
  }

  lemma HashedColor(r: Channel, g: Channel, b: Channel, lower: bool)
    ensures var v := "#" + PrintedColor(r, g, b, lower);
            UpToNul(v) == v && HexColor(v) == Packed(r, g, b)
  {
    var six := PrintedColor(r, g, b, lower);
    var v := "#" + six;
    forall i | 0 <= i < |v|
      ensures v[i] != '\0'
    {
      assert i > 0 ==> IsHex(six[i - 1]);
    }
    hide HexColor, Packed, PrintedColor, UpToNul;
    NoNulInside(v);
    ColorUndoesPrint("", true, r, g, b, lower, "");
    assert "" + "#" + six + "" == v;
  }

  /** What is printed on a tag: number, maker, material, nozzle and bed temperatures, diameter and colour. */
  datatype Print = Print(n: nat, brand: string, material: string, lo: nat, hi: nat, bedLo: nat, bedHi: nat,
                         diameter: nat, r: Channel, g: Channel, b: Channel, lower: bool)

  /** Text that a field can hold: bytes other than NUL, at least one and at most nineteen. */
  predicate FieldText(v: string) { 1 <= |v| <= 19 && forall i :: 0 <= i < |v| ==> 0 < v[i] as int < 0x100 }

  ghost predicate PrintsTexts(s: string, p: Print) {
    && PrintsSku(s, p.n) && |Decimal(p.n)| <= 17
    && PrintsText(s, "brand", p.brand) && PrintsText(s, "material", p.material)
    && FieldText(p.brand) && FieldText(p.material)
    && PrintsText(s, "color_hex", "#" + PrintedColor(p.r, p.g, p.b, p.lower))
  }

  ghost predicate PrintsNumbers(s: string, p: Print) {
    && PrintsDecimal(s, "temp_min", p.lo) && PrintsDecimal(s, "temp_max", p.hi)
    && PrintsDecimal(s, "bed_min", p.bedLo) && PrintsDecimal(s, "bed_max", p.bedHi)
    && PrintsDecimal(s, "diameter", p.diameter)
    && 1 <= p.lo <= 65535 && 1 <= p.hi <= 65535 && 1 <= p.bedLo <= 65535 && 1 <= p.bedHi <= 65535
    && 100 < p.diameter < 300
  }

  ghost predicate Prints(s: string, p: Print) { PrintsTexts(s, p) && PrintsNumbers(s, p) }

  lemma FieldTextShows(v: string)
    requires FieldText(v)
    ensures UpToNul(v) == v && TC.Text(Field(v), TC.LANE - 1) == AsBytes(v)
  {
    hide UpToNul, Field, TC.Text;
    NoNulInside(v);
    FieldShows(v);
    assert Cut(v, 20) == v;
  }

  lemma JsonTagTexts(s: string, p: Print)
    requires PrintsTexts(s, p)
    ensures var t := JsonTag(s);
            && TC.Text(t.sku, TC.LANE - 1) == AsBytes("SM" + Decimal(p.n))
            && TC.Text(t.brand, TC.LANE - 1) == AsBytes(p.brand)
            && TC.Text(t.material, TC.LANE - 1) == AsBytes(p.material)
            && t.color == Packed(p.r, p.g, p.b) && t.version == 0x0101 && t.totalGrams == 1000
  {
    hide PrintsSku, PrintsText, FieldText, TagSku, FirstValue, FirstNumber, Field, UpToNul, HexColor, Packed, Decimal,
         PrintedColor, Range, TC.Text;
    PrintedSku(s, p.n);
    SkuShows(p.n);
    FieldTextShows(p.brand);
    FieldTextShows(p.material);
    FieldTextFits(p.brand);
    FieldTextFits(p.material);
    PrintedText(s, BRAND_KEYS, p.brand, 24);
    PrintedText(s, TYPE_KEYS, p.material, 24);
    PrintedText(s, COLOR_KEYS, "#" + PrintedColor(p.r, p.g, p.b, p.lower), 16);
    HashedColor(p.r, p.g, p.b, p.lower);
  }

  lemma FieldTextFits(v: string)
    requires FieldText(v)
    ensures 1 <= |v| <= 19
  {
  }

  lemma JsonTagNumbers(s: string, p: Print)
    requires PrintsNumbers(s, p)
    ensures var t := JsonTag(s);
            && t.tempMin == p.lo && t.tempMax == p.hi && t.bedMin == p.bedLo && t.bedMax == p.bedHi
            && t.diameter == p.diameter
  {
    hide PrintsDecimal, TagSku, FirstValue, FirstNumber, Field, ColorOf, BrandOf, TypeOf, Contains;
    PrintedNumber(s, TEMP_MIN_KEYS, p.lo);
    PrintedNumber(s, TEMP_MAX_KEYS, p.hi);
    PrintedNumber(s, BED_MIN_KEYS, p.bedLo);
    PrintedNumber(s, BED_MAX_KEYS, p.bedHi);
    PrintedNumber(s, DIAMETER_KEYS, p.diameter);
  }

  /** A missing nozzle or bed bound is made up for by the material, in this order of preference. */
  lemma DefaultsByMaterial(s: string)
    ensures var m, t := Padded(FirstValue(s, TYPE_KEYS, 0, 24), 24), JsonTag(s);
            var noNozzle := FirstNumber(s, TEMP_MIN_KEYS, 0) == 0 || FirstNumber(s, TEMP_MAX_KEYS, 0) == 0;
            var noBed := FirstNumber(s, BED_MIN_KEYS, 0) == 0 || FirstNumber(s, BED_MAX_KEYS, 0) == 0;
            var petg, abs, tpu := Contains(m, "petg"), Contains(m, "abs"), Contains(m, "tpu");
            && (noNozzle && petg ==> t.tempMin == 230 && t.tempMax == 250)
            && (noNozzle && !petg && abs ==> t.tempMin == 240 && t.tempMax == 260)
            && (noNozzle && !petg && !abs && tpu ==> t.tempMin == 210 && t.tempMax == 230)
            && (noNozzle && !petg && !abs && !tpu ==> t.tempMin == 200 && t.tempMax == 220)
            && (noBed && petg ==> t.bedMin == 70 && t.bedMax == 85)
            && (noBed && !petg && abs ==> t.bedMin == 90 && t.bedMax == 110)
            && (noBed && !petg && !abs && tpu ==> t.bedMin == 30 && t.bedMax == 60)
            && (noBed && !petg && !abs && !tpu ==> t.bedMin == 50 && t.bedMax == 60)
            && (!(100 < FirstNumber(s, DIAMETER_KEYS, 0) < 300) ==> t.diameter == 175)
  {
    hide TagSku, FirstValue, FirstNumber, Field, ColorOf, BrandOf, TypeOf, Contains, Padded;
  }

  /** Of these keys only this one has a number. */
  predicate OnlyNumber(s: string, keys: set<string>, key: string) {
    key in keys && Uint16Value(s, key).Some? && forall k :: k in keys && k != key ==> Uint16Value(s, k).None?
  }

  lemma {:induction false} SoleNumber(s: string, keys: seq<string>, from: nat, key: string)
    requires from <= |keys| && key in keys[from..] && Uint16Value(s, key).Some?
    requires forall k :: k in keys && k != key ==> Uint16Value(s, k).None?
    ensures FirstNumber(s, keys, from) == Uint16Value(s, key).value
    decreases |keys| - from
  {
    hide Uint16Value;
    if keys[from] != key {
      assert keys[from] in keys;
      assert keys[from..] == [keys[from]] + keys[from + 1..];
      SoleNumber(s, keys, from + 1, key);
    }
  }

  lemma SoleNumberDecides(s: string, keys: seq<string>, names: set<string>, key: string)
    requires OnlyNumber(s, names, key) && forall k :: k in keys <==> k in names
    ensures FirstNumber(s, keys, 0) == Uint16Value(s, key).value
  {
    hide Uint16Value;
    assert keys[0..] == keys;
    SoleNumber(s, keys, 0, key);
  }

  /** Each temperature and the diameter may go by any of its names. */
  lemma NumbersByAnyName(s: string, key: string)
    requires Uint16Value(s, key).Some?
    ensures var n := Uint16Value(s, key).value;
            && (OnlyNumber(s, {"temp_min", "min_temp", "extruder_min"}, key) ==> FirstNumber(s, TEMP_MIN_KEYS, 0) == n)
            && (OnlyNumber(s, {"temp_max", "max_temp", "extruder_max"}, key) ==> FirstNumber(s, TEMP_MAX_KEYS, 0) == n)
            && (OnlyNumber(s, {"bed_min", "bed_temp_min"}, key) ==> FirstNumber(s, BED_MIN_KEYS, 0) == n)
            && (OnlyNumber(s, {"bed_max", "bed_temp_max"}, key) ==> FirstNumber(s, BED_MAX_KEYS, 0) == n)
            && (OnlyNumber(s, {"diameter"}, key) ==> FirstNumber(s, DIAMETER_KEYS, 0) == n)
  {
    hide Uint16Value, FirstNumber, OnlyNumber;
    if OnlyNumber(s, {"temp_min", "min_temp", "extruder_min"}, key) {
      SoleNumberDecides(s, TEMP_MIN_KEYS, {"temp_min", "min_temp", "extruder_min"}, key);
    }
    if OnlyNumber(s, {"temp_max", "max_temp", "extruder_max"}, key) {
      SoleNumberDecides(s, TEMP_MAX_KEYS, {"temp_max", "max_temp", "extruder_max"}, key);
    }
    if OnlyNumber(s, {"bed_min", "bed_temp_min"}, key) {
      SoleNumberDecides(s, BED_MIN_KEYS, {"bed_min", "bed_temp_min"}, key);
    }
    if OnlyNumber(s, {"bed_max", "bed_temp_max"}, key) {
      SoleNumberDecides(s, BED_MAX_KEYS, {"bed_max", "bed_temp_max"}, key);
    }
    if OnlyNumber(s, {"diameter"}, key) {
      SoleNumberDecides(s, DIAMETER_KEYS, {"diameter"}, key);
    }
  }

  /** Of these keys only this one has a value. */
  predicate OnlyText(s: string, keys: set<string>, key: string) {
    key in keys && !NoValue(s, key) && forall k :: k in keys && k != key ==> NoValue(s, k)
  }

  lemma {:induction false} SoleText(s: string, keys: seq<string>, from: nat, key: string, size: nat)
    requires from <= |keys| && key in keys[from..] && !NoValue(s, key) && size >= 2
    requires forall k :: k in keys && k != key ==> NoValue(s, k)
    ensures FirstValue(s, keys, from, size) == Cut(StringValue(s, key).value, size)
    decreases |keys| - from
  {
    hide StringValue;
    if keys[from] != key {
      assert keys[from] in keys;
      assert keys[from..] == [keys[from]] + keys[from + 1..];
      SoleText(s, keys, from + 1, key, size);
    }
  }

  lemma SoleTextDecides(s: string, keys: seq<string>, names: set<string>, key: string, size: nat)
    requires OnlyText(s, names, key) && size >= 2 && forall k :: k in keys <==> k in names
    ensures FirstValue(s, keys, 0, size) == Cut(StringValue(s, key).value, size)
  {
    hide StringValue;
    assert keys[0..] == keys;
    SoleText(s, keys, 0, key, size);
  }

  /** Maker, material and colour may go by any of their names. */
  lemma TextsByAnyName(s: string, key: string)
    requires !NoValue(s, key)
    ensures var v := StringValue(s, key).value;
            && (OnlyText(s, {"brand", "manufacturer", "vendor"}, key) ==>
                  FirstValue(s, BRAND_KEYS, 0, 24) == Cut(v, 24))
            && (OnlyText(s, {"material", "type", "filament_type"}, key) ==>
                  FirstValue(s, TYPE_KEYS, 0, 24) == Cut(v, 24))
            && (OnlyText(s, {"color_hex", "color", "colour", "hex"}, key) ==>
                  FirstValue(s, COLOR_KEYS, 0, 16) == Cut(v, 16))
  {
    hide StringValue, FirstValue, OnlyText;
    HasValue(s, key);
    hide NoValue;
    if OnlyText(s, {"brand", "manufacturer", "vendor"}, key) {
      SoleTextDecides(s, BRAND_KEYS, {"brand", "manufacturer", "vendor"}, key, 24);
    }
    if OnlyText(s, {"material", "type", "filament_type"}, key) {
      SoleTextDecides(s, TYPE_KEYS, {"material", "type", "filament_type"}, key, 24);
    }
    if OnlyText(s, {"color_hex", "color", "colour", "hex"}, key) {
      SoleTextDecides(s, COLOR_KEYS, {"color_hex", "color", "colour", "hex"}, key, 16);
    }
  }

  /** A tag that names no maker is FilaMan's if it says so anywhere, and one that names no material is PLA. */
  lemma UnnamedTexts(s: string)
    ensures (forall k :: k in {"brand", "manufacturer", "vendor"} ==> NoValue(s, k)) ==>
              JsonTag(s).brand == Field(if Contains(s, "filaman") then "FilaMan" else "OpenSpool")
    ensures (forall k :: k in {"material", "type", "filament_type"} ==> NoValue(s, k)) ==>
              JsonTag(s).material == Field("PLA")
  {
    hide StringValue, NoValue, FirstNumber, FirstValue, TagSku, ColorOf, Range, Field, Contains, Padded;
    if forall k :: k in {"brand", "manufacturer", "vendor"} ==> NoValue(s, k) {
      NoKeyNoValue(s, BRAND_KEYS, 0, 24);
      NoNulInside("");
    }
    if forall k :: k in {"material", "type", "filament_type"} ==> NoValue(s, k) {
      NoKeyNoValue(s, TYPE_KEYS, 0, 24);
      NoNulInside("");
    }
  }

  /** What the record shows of a tag, by the offsets the firmware documents. */
  ghost predicate RecordShows(m: Image, p: Print)
    requires |m| >= TC.RECORD_SIZE
  {
    && m[22] == 2 && TC.U16(m, 26) == 0x0101 && TC.TextAt(m, 28) == AsBytes("SM" + Decimal(p.n))
    && TC.TextAt(m, 48) == AsBytes(p.brand) && TC.TextAt(m, 68) == AsBytes(p.material)
    && TC.U32(m, 88) == Packed(p.r, p.g, p.b) && TC.U16(m, 104) == p.lo && TC.U16(m, 106) == p.hi
    && TC.U16(m, 124) == p.bedLo && TC.U16(m, 126) == p.bedHi && TC.U16(m, 128) == p.diameter && TC.U32(m, 132) == 1000
  }

  lemma ParsedAsJson(page: Image, bytes: int, branded: string -> TC.Tag)
    requires IsJsonPage(page, bytes)
    ensures TC.ParseTag(page, bytes, Decoder(branded)) == TC.Foreign(JsonTag(Seen(page, bytes)))
  {
    hide AnyWord, JsonTag;
    assert page[..4] == [page[0], page[1], page[2], page[3]];
  }

  /**
   * From print to memory: on a JSON page both entry points succeed, the background record holds all that is
   * printed, and the live response holds the same but for the maker, which it has no room for.
   */
  lemma PrintReachesBothLayouts(address: nat, record: Image, response: Image, page: Image, bytes: int, p: Print,
                                classic: Option<TC.Tag>, branded: string -> TC.Tag)
    requires address < TC.SLOT_TABLE_END && |record| >= TC.RECORD_SIZE && |response| >= TC.RESPONSE_SIZE
    requires IsJsonPage(page, bytes) && Prints(Seen(page, bytes), p)
    ensures var background := TC.Background(record,
              TC.BackgroundParse(address, page, bytes, classic, Decoder(branded)));
            var live := TC.Live(response, TC.ParseTag(page, bytes, Decoder(branded)));
            && background.0 == 1 == live.0 && |background.1| == |record| && |live.1| == |response|
            && RecordShows(background.1, p) && TC.SameTag(background.1, live.1)
  {
    hide IsJsonPage, Prints, JsonTag, Decoder, TC.ParseTag, TC.CommitRecord, TC.CommitResponse, TC.U16, TC.U32,
         TC.TextAt, TC.Text, TC.SameTag, Packed, Decimal;
    assert TC.Readable(page, bytes) && bytes >= 140 by { JsonPageIsReadable(page, bytes); }
    var t := JsonTag(Seen(page, bytes));
    ParsedAsJson(page, bytes, branded);
    assert PrintsTexts(Seen(page, bytes), p) && PrintsNumbers(Seen(page, bytes), p) by {
      PrintsBoth(Seen(page, bytes), p);
    }
    hide PrintsTexts, PrintsNumbers;
    JsonTagTexts(Seen(page, bytes), p);
    JsonTagNumbers(Seen(page, bytes), p);
    TC.RecordLanes(record, t);
    TC.RecordNumbers(record, t);
    TC.RecordStatus(record, t);
    TC.EntryPointsAgree(address, record, response, page, bytes, classic, Decoder(branded));
  }

  lemma PrintsBoth(s: string, p: Print)
    requires Prints(s, p)
    ensures PrintsTexts(s, p) && PrintsNumbers(s, p)
  {
  }

  lemma JsonPageIsReadable(page: Image, bytes: int)
    requires IsJsonPage(page, bytes)
    ensures TC.Readable(page, bytes) && bytes >= 140
  {
  }

  // ---- What the driver makes of it ----

  /**
   * The version the chip stores for a JSON tag is one the driver has no rule for: a reply that carries it
   * never reaches a lane, and the raw image is fetched whenever the reply is attributed to the slot.
   */
  lemma OnChipDecodeIsRefetched(response: Image, s: string, lanes: Lanes.State, slot: int, reply: Lanes.Reply,
                                mode: Lanes.TempMode)
    requires |response| >= TC.RESPONSE_SIZE && reply.version == TC.U32(TC.CommitResponse(response, JsonTag(s)), 4)
    ensures Lanes.HandleReply(lanes, slot, reply, mode).lanes == lanes.lanes
    ensures Lanes.ReplyOutcome(lanes, slot, reply, mode)
            == if reply.identified && Lanes.ReplyIndexMatches(reply.index, slot) then Lanes.RawFetch else Lanes.Dropped
  {
    hide TC.CommitResponse, TC.U32, Lanes.HandleReply, Lanes.ReplyOutcome, FirstValue, FirstNumber, TagSku;
    TC.ResponseSpool(response, JsonTag(s));
    Lanes.ForeignReplyIsRefetched(lanes, slot, reply, mode);
  }
}
