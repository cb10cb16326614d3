/** Fields of a foreign tag that the firmware rewrites on the way in: the packed colour and the SKU. */
module TagFields {
  import opened Wrappers
  import opened Text
  import opened TagJson

  // ---- Hexadecimal colours ----

  predicate IsHex(c: char) { '0' <= c <= '9' || 'a' <= c <= 'f' || 'A' <= c <= 'F' }

  function HexVal(c: char): (v: nat)
    ensures v < 16
  {
    if '0' <= c <= '9' then c as int - '0' as int
    else if 'a' <= c <= 'f' then c as int - 'a' as int + 10
    else if 'A' <= c <= 'F' then c as int - 'A' as int + 10
    else 0
  }

  function HexChar(v: nat, lower: bool): (c: char)
    requires v < 16
    ensures IsHex(c) && HexVal(c) == v
  {
    if v < 10 then ('0' as int + v) as char
    else if lower then ('a' as int + (v - 10)) as char
    else ('A' as int + (v - 10)) as char
  }

  type Channel = x: int | 0 <= x < 0x100

  /** Red, green and blue over a full low byte, so no colour packs to zero. */
  function Packed(r: Channel, g: Channel, b: Channel): (c: int)
    ensures 0 < c < 0x1_0000_0000
  {
    r * 0x100_0000 + g * 0x1_0000 + b * 0x100 + 0xFF
  }

  /** A packed colour determines its channels. */
  lemma PackedIsInjective(r: Channel, g: Channel, b: Channel, r': Channel, g': Channel, b': Channel)
    requires Packed(r, g, b) == Packed(r', g', b')
    ensures r == r' && g == g' && b == b'
  {
  }

  /** From the top byte down: red, green, blue and a full byte. */
  lemma PackedLanes(r: Channel, g: Channel, b: Channel)
    ensures var c := Packed(r, g, b);
            c / 0x100_0000 == r && c / 0x1_0000 % 0x100 == g && c / 0x100 % 0x100 == b && c % 0x100 == 0xFF
  {
    var c := Packed(r, g, b);
    assert c / 0x1_0000 == 0x100 * r + g;
    assert c / 0x100 == 0x100 * (0x100 * r + g) + b;
  }

  predicate SixHexAt(s: string, i: nat) { i + 6 <= |s| && forall k :: i <= k < i + 6 ==> IsHex(s[k]) }

  function ColorAt(s: string, i: nat): (c: int)
    requires SixHexAt(s, i)
    ensures c > 0
  {
    Packed(16 * HexVal(s[i]) + HexVal(s[i + 1]), 16 * HexVal(s[i + 2]) + HexVal(s[i + 3]),
           16 * HexVal(s[i + 4]) + HexVal(s[i + 5]))
  }

  const SPACES: set<char> := {' '}

  /** The colour a value starts with, after blanks and at most one hash sign; zero when there is none. */
  function HexColor(s: string): (c: int)
  {
    var i := Skip(s, 0, SPACES);
    var j := if i < |s| && s[i] == '#' then i + 1 else i;
    if SixHexAt(s, j) then ColorAt(s, j) else 0
  }

  method ParseHexColor(s: string) returns (c: int)
    ensures c == HexColor(s)
  {
    hide ColorAt, Skip;
    var i := SkipLoop(s, 0, SPACES);
    if i < |s| && s[i] == '#' {
      i := i + 1;
    }
    if i + 6 <= |s| && IsHex(s[i]) && IsHex(s[i + 1]) && IsHex(s[i + 2])
      && IsHex(s[i + 3]) && IsHex(s[i + 4]) && IsHex(s[i + 5]) {
      return ColorAt(s, i);
    }
    c := 0;
  }

  predicate HashColorAt(s: string, i: nat) { i < |s| && s[i] == '#' && SixHexAt(s, i + 1) }

  /** The first hash sign followed by six hexadecimal digits gives the colour, and zero means there is none. */
  method ScanForHexColor(s: string) returns (c: int)
    ensures c == 0 <==> forall i: nat :: !HashColorAt(s, i)
    ensures c != 0 ==> exists i: nat :: HashColorAt(s, i) && c == ColorAt(s, i + 1)
                                          && forall j: nat :: j < i ==> !HashColorAt(s, j)
  {
    hide ColorAt;
    var i: nat := 0;
    while i + 7 <= |s|
      invariant forall j: nat :: j < i ==> !HashColorAt(s, j)
    {
      if s[i] == '#' && IsHex(s[i + 1]) && IsHex(s[i + 2]) && IsHex(s[i + 3])
        && IsHex(s[i + 4]) && IsHex(s[i + 5]) && IsHex(s[i + 6]) {
        assert HashColorAt(s, i);
        c := ParseHexColor(s[i..i + 7]);
        HashColorParses(s, i);
        return;
      }
      i := i + 1;
    }
    c := 0;
  }

  lemma HashColorParses(s: string, i: nat)
    requires HashColorAt(s, i)
    ensures HexColor(s[i..i + 7]) == ColorAt(s, i + 1)
  {
    var t := s[i..i + 7];
    assert t[0] == '#';
    forall k | 1 <= k < 7
      ensures t[k] == s[i + k] && IsHex(s[i + k])
    {
    }
    SkipOver(t, 0, 0, SPACES);
  }

  function Hex2(v: Channel, lower: bool): (s: string)
    ensures |s| == 2
  {
    [HexChar(v / 16, lower), HexChar(v % 16, lower)]
  }

  function PrintedColor(r: Channel, g: Channel, b: Channel, lower: bool): (s: string)
    ensures |s| == 6
  {
    Hex2(r, lower) + Hex2(g, lower) + Hex2(b, lower)
  }

  lemma PrintedColorAt(s: string, j: nat, r: Channel, g: Channel, b: Channel, lower: bool)
    requires j + 6 <= |s| && s[j..j + 6] == PrintedColor(r, g, b, lower)
    ensures SixHexAt(s, j) && ColorAt(s, j) == Packed(r, g, b)
  {
    hide Packed;
    var six := PrintedColor(r, g, b, lower);
    forall k | 0 <= k < 6
      ensures s[j + k] == six[k] && IsHex(six[k])
    {
      assert s[j + k] == s[j..j + 6][k];
    }
    assert s[j] == six[0];
  }

  /** A printed colour comes back packed, with or without its hash sign, in either case, whatever follows. */
  lemma ColorUndoesPrint(ws: string, hash: bool, r: Channel, g: Channel, b: Channel, lower: bool, suf: string)
    requires AllIn(ws, SPACES)
    ensures HexColor(ws + (if hash then "#" else "") + PrintedColor(r, g, b, lower) + suf) == Packed(r, g, b)
  {
    hide ColorAt, Packed, SixHexAt;
    var six := PrintedColor(r, g, b, lower);
    var s := ws + (if hash then "#" else "") + six + suf;
    var j := |ws| + if hash then 1 else 0;
    assert s[|ws|] == if hash then '#' else six[0];
    SkipOver(s, 0, |ws|, SPACES);
    PrintedColorAt(s, j, r, g, b, lower);
  }

  // ---- The SKU ----

  const SKU_KEYS: seq<string> := ["sku", "spool_id", "spoolId", "sm_id", "spoolman_id"]

  /** The text a C string buffer shows. */
  function UpToNul(s: string): (t: string)
    ensures t <= s && '\0' !in t
    ensures |t| == |s| || s[|t|] == '\0'
  {
    if s == "" || s[0] == '\0' then "" else [s[0]] + UpToNul(s[1..])
  }

  /** A zeroed buffer of n bytes after v was written to its front. */
  function Padded(v: string, n: nat): (buf: string)
    requires |v| <= n
    ensures |buf| == n
  {
    v + seq(n - |v|, _ => '\0')
  }

  /** What a buffer of size bytes gets from the first of the keys, from the k-th on, with a value that is not empty. */
  function FirstValue(s: string, keys: seq<string>, k: nat, size: nat): (v: string)
    requires k <= |keys| && size >= 1
    ensures |v| < size
    decreases |keys| - k
  {
    if k == |keys| then ""
    else
      var v := StringValue(s, keys[k]);
      if v.Some? && Cut(v.value, size) != "" then Cut(v.value, size) else FirstValue(s, keys, k + 1, size)
  }

  /** The SKU a JSON tag is given: a bare number gets the SM prefix, and 19 characters are kept. */
  function TagSku(s: string): (sku: string) {
    var v := UpToNul(FirstValue(s, SKU_KEYS, 0, 24));
    if v == "" then "OPENSPOOL" else if AllDigits(v) then Cut("SM" + Cut(v, 22), 20) else Cut(v, 20)
  }

  lemma {:induction false} UpToNulOfPadded(v: string, n: nat)
    requires |v| < n
    ensures UpToNul(Padded(v, n)) == UpToNul(v)
  {
    var w := Padded(v, n);
    if v != "" {
      assert w[0] == v[0] && w[1..] == Padded(v[1..], n - 1);
      UpToNulOfPadded(v[1..], n - 1);
    }
  }

  lemma WrittenToZeroes(n: nat, v: string)
    requires |v| < n
    ensures Written(Padded("", n), v) == Padded(v, n)
  {
  }

  /** The keys in turn, until one extracts something into the zeroed buffer. */
  method FirstKey(s: string, keys: seq<string>, tmp: array<char>) returns (found: bool)
    requires tmp.Length >= 1 && tmp[..] == Padded("", tmp.Length)
    modifies tmp
    ensures var v := FirstValue(s, keys, 0, tmp.Length); tmp[..] == Padded(v, tmp.Length) && found == (v != "")
  {
    hide StringValue, Cut, Written, Padded;
    ghost var n := tmp.Length;
    found := false;
    var k := 0;
    while k < |keys|
      invariant k <= |keys| && tmp[..] == Padded("", n)
      invariant FirstValue(s, keys, 0, n) == FirstValue(s, keys, k, n)
    {
      found := JsonExtractString(s, keys[k], tmp, tmp.Length);
      if StringValue(s, keys[k]).Some? {
        WrittenToZeroes(n, Cut(StringValue(s, keys[k]).value, n));
      }
      if found {
        return;
      }
      k := k + 1;
    }
  }

  method DecodeSku(s: string) returns (sku: string)
    ensures sku == TagSku(s)
  {
    hide FirstValue, UpToNul, Padded;
    var tmp := new char[24](_ => '\0');
    assert tmp[..] == Padded("", 24) by { ZeroesArePadding(tmp[..]); }
    var found := FirstKey(s, SKU_KEYS, tmp);
    UpToNulOfPadded(FirstValue(s, SKU_KEYS, 0, 24), 24);
    sku := FormatSku(tmp);
  }

  lemma ZeroesArePadding(buf: string)
    requires forall i :: 0 <= i < |buf| ==> buf[i] == '\0'
    ensures buf == Padded("", |buf|)
  {
  }

  method FormatSku(tmp: array<char>) returns (sku: string)
    requires tmp.Length == 24 && |UpToNul(tmp[..])| < 24
    ensures var v := UpToNul(tmp[..]);
            sku == if v == "" then "OPENSPOOL" else if AllDigits(v) then Cut("SM" + Cut(v, 22), 20) else Cut(v, 20)
  {
    hide UpToNul;
    ghost var v := UpToNul(tmp[..]);
    assert tmp[|v|] == '\0' && v == tmp[..|v|];
    if tmp[0] == '\0' {
      return "OPENSPOOL";
    }
    var allDigits, i: nat := true, 0;
    while tmp[i] != '\0'
      invariant i <= |v| && allDigits
      invariant forall k :: 0 <= k < i ==> IsDigit(tmp[k])
      decreases |v| - i
    {
      assert tmp[i] == v[i];
      if !IsDigit(tmp[i]) {
        allDigits := false;
        break;
      }
      i := i + 1;
    }
    assert allDigits == AllDigits(v);
    var text := CopyText(tmp, if allDigits then 22 else 20);
    sku := if allDigits then Cut("SM" + text, 20) else text;
  }

  /** The text a copy of at most max bytes shows, terminator included. */
  method CopyText(src: array<char>, max: nat) returns (t: string)
    requires 1 <= max <= src.Length && |UpToNul(src[..])| < src.Length
    ensures t == Cut(UpToNul(src[..]), max)
  {
    hide UpToNul;
    ghost var v := UpToNul(src[..]);
    assert src[|v|] == '\0' && v == src[..|v|];
    t := "";
    while |t| < max - 1 && src[|t|] != '\0'
      invariant |t| <= max - 1 && t <= v
      decreases max - |t|
    {
      assert |t| < |v| && v[|t|] == src[|t|];
      t := t + [src[|t|]];
    }
    assert |t| < max - 1 ==> |t| == |v|;
  }

  lemma {:induction false} NoNulInside(v: string)
    requires '\0' !in v
    ensures UpToNul(v) == v
  {
    if v != "" {
      assert v[0] in v;
      NoNulInside(v[1..]);
    }
  }

  predicate PrintsNumber(text: string, n: nat, suf: string) {
    text == Quoted(Decimal(n)) || (text == Decimal(n) && (suf != "" ==> suf[0] in BARE_ENDS))
  }

  /** A tag whose first sku is a plain number n, quoted or bare, gets the SKU SM<n>, up to seventeen digits. */
  lemma NumericSku(pre: string, printed: string, ws1: string, ws2: string, text: string, n: nat, suf: string)
    requires AllIn(ws1, BEFORE_COLON) && AllIn(ws2, BLANKS) && PrintsNumber(text, n, suf) && |Decimal(n)| <= 17
    requires FirstMember(pre, printed, "sku", pre + Member(printed, ws1, ws2, text) + suf)
    ensures TagSku(pre + Member(printed, ws1, ws2, text) + suf) == "SM" + Decimal(n)
  {
    hide Member, FirstMember, Decimal, StringValue, AllIn, Quoted, UpToNul;
    var s, v := pre + Member(printed, ws1, ws2, text) + suf, Decimal(n);
    if text == Quoted(v) {
      StringUndoesPrint(pre, printed, "sku", ws1, ws2, v, suf);
    } else {
      BareUndoesPrint(pre, printed, "sku", ws1, ws2, v, suf);
    }
    assert FirstValue(s, SKU_KEYS, 0, 24) == Cut(v, 24) == v;
    NoNulInside(v);
  }

  /** A key without a value, or with an empty one. */
  predicate NoValue(s: string, key: string) { StringValue(s, key).None? || StringValue(s, key).value == "" }

  /** The first key with a value gives it, cut to the buffer. */
  lemma {:induction false} FirstKeyWins(s: string, keys: seq<string>, from: nat, k: nat, size: nat)
    requires from <= k < |keys| && size >= 2 && !NoValue(s, keys[k])
    requires forall i :: from <= i < k ==> NoValue(s, keys[i])
    ensures FirstValue(s, keys, from, size) == Cut(StringValue(s, keys[k]).value, size)
    decreases k - from
  {
    hide StringValue;
    if from < k {
      FirstKeyWins(s, keys, from + 1, k, size);
    }
  }

  lemma {:induction false} NoKeyNoValue(s: string, keys: seq<string>, from: nat, size: nat)
    requires from <= |keys| && size >= 1 && forall i :: from <= i < |keys| ==> NoValue(s, keys[i])
    ensures FirstValue(s, keys, from, size) == ""
    decreases |keys| - from
  {
    hide StringValue;
    if from < |keys| {
      NoKeyNoValue(s, keys, from + 1, size);
    }
  }

  /** A sku that is no number is kept, up to nineteen characters, and a tag without one is called OPENSPOOL. */
  lemma OtherSkus(s: string, k: nat)
    requires k <= 5 && forall i :: 0 <= i < k ==> NoValue(s, SKU_KEYS[i])
    ensures k == 5 ==> TagSku(s) == "OPENSPOOL"
    ensures k < 5 && !NoValue(s, SKU_KEYS[k]) ==>
              var v := StringValue(s, SKU_KEYS[k]).value;
              '\0' !in v && !AllDigits(v) && |v| < 24 ==> TagSku(s) == Cut(v, 20)
  {
    hide StringValue, NoValue, UpToNul, FirstValue;
    if k == 5 {
      NoKeyNoValue(s, SKU_KEYS, 0, 24);
      NoNulInside("");
    } else if !NoValue(s, SKU_KEYS[k]) {
      FirstKeyWins(s, SKU_KEYS, 0, k, 24);
      HasValue(s, SKU_KEYS[k]);
      var v := StringValue(s, SKU_KEYS[k]).value;
      if '\0' !in v && |v| < 24 {
        NoNulInside(v);
      }
    }
  }

  lemma HasValue(s: string, key: string)
    requires !NoValue(s, key)
    ensures StringValue(s, key).Some? && StringValue(s, key).value != ""
  {
  }
}
