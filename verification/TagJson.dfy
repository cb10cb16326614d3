/** The bounded JSON scanner of the on-chip tag decoder: values are found by key and copied out, with no parse. */
module TagJson {
  import opened Numbers
  import opened Wrappers
  import opened Text

  // A buffer is a string of bytes; its length is the length the firmware passes along with it.

  function ToLower(c: char): char { if 'A' <= c <= 'Z' then c - 'A' + 'a' else c }

  predicate SameNoCase(a: string, b: string) {
    |a| == |b| && forall k :: 0 <= k < |a| ==> ToLower(a[k]) == ToLower(b[k])
  }

  // ---- Where a key is ----

  predicate StartsWord(s: string, i: nat)
    requires i <= |s|
  {
    i == 0 || s[i - 1] in {'"', '{', ',', ' ', '\t', '\n'}
  }

  predicate EndsWord(s: string, j: nat) { j < |s| && s[j] in {'"', ':', ' ', '\t'} }

  predicate KeyMatch(s: string, i: nat, key: string) {
    && i + |key| <= |s| && StartsWord(s, i)
    && SameNoCase(s[i..i + |key|], key) && EndsWord(s, i + |key|)
  }

  /** The position just after the first match of the key. */
  method FindKey(s: string, key: string) returns (pos: Option<nat>)
    ensures pos == KeyEnd(s, key, 0)
  {
    hide StartsWord, EndsWord, SameNoCase;
    var i: nat := 0;
    while i + |key| <= |s|
      invariant i <= |s| + 1
      invariant KeyEnd(s, key, 0) == KeyEnd(s, key, i)
      decreases |s| - i
    {
      if StartsWord(s, i) {
        var same := Compare(s, i, key);
        if same && EndsWord(s, i + |key|) {
          return Some(i + |key|);
        }
      }
      i := i + 1;
    }
    pos := None;
  }

  method Compare(s: string, i: nat, key: string) returns (same: bool)
    requires i + |key| <= |s|
    ensures same == SameNoCase(s[i..i + |key|], key)
  {
    for k := 0 to |key|
      invariant forall j :: 0 <= j < k ==> ToLower(s[i + j]) == ToLower(key[j])
    {
      if ToLower(s[i + k]) != ToLower(key[k]) {
        assert s[i..i + |key|][k] == s[i + k];
        return false;
      }
    }
    same := true;
  }

  function KeyEnd(s: string, key: string, from: nat): (pos: Option<nat>)
    ensures pos.Some? ==> from + |key| <= pos.value <= |s| && KeyMatch(s, pos.value - |key|, key)
    decreases |s| - from
  {
    if from + |key| > |s| then None
    else if KeyMatch(s, from, key) then Some(from + |key|)
    else KeyEnd(s, key, from + 1)
  }

  /** The first match is the one found. */
  lemma {:induction false} KeyEndIsFirst(s: string, key: string, from: nat, at: nat)
    requires from <= at && KeyMatch(s, at, key)
    requires forall i :: from <= i < at ==> !KeyMatch(s, i, key)
    ensures KeyEnd(s, key, from) == Some(at + |key|)
    decreases at - from
  {
    if from < at {
      KeyEndIsFirst(s, key, from + 1, at);
    }
  }

  lemma {:induction false} NoKeyEnd(s: string, key: string, from: nat)
    ensures KeyEnd(s, key, from).None? <==> forall i :: from <= i && i + |key| <= |s| ==> !KeyMatch(s, i, key)
    decreases |s| - from
  {
    if from + |key| <= |s| && !KeyMatch(s, from, key) {
      NoKeyEnd(s, key, from + 1);
    }
  }

  // ---- Skipping and taking runs of characters ----

  /** The first position from i on whose character is not in the set. */
  function Skip(s: string, i: nat, chars: set<char>): (j: nat)
    requires i <= |s|
    ensures i <= j <= |s|
    decreases |s| - i
  {
    if i < |s| && s[i] in chars then Skip(s, i + 1, chars) else i
  }

  lemma {:induction false} SkipOver(s: string, i: nat, j: nat, chars: set<char>)
    requires i <= j <= |s| && (forall k :: i <= k < j ==> s[k] in chars) && (j < |s| ==> s[j] !in chars)
    ensures Skip(s, i, chars) == j
    decreases j - i
  {
    if i < j {
      SkipOver(s, i + 1, j, chars);
    }
  }

  /** The characters from i on up to the first one in the set. */
  function Take(s: string, i: nat, ends: set<char>): (v: string)
    requires i <= |s|
    ensures i + |v| <= |s| && v == s[i..i + |v|]
    decreases |s| - i
  {
    if i < |s| && s[i] !in ends then [s[i]] + Take(s, i + 1, ends) else ""
  }

  const BEFORE_COLON: set<char> := {'"', ' ', '\t', '\r', '\n'}
  const QUOTES: set<char> := {'"'}
  const BLANKS: set<char> := {' ', '\t', '\r', '\n'}
  const BEFORE_NUMBER: set<char> := {' ', '\t', '"'}
  const BARE_ENDS: set<char> := {',', '}', ' ', '\r', '\n'}

  /** Just after the colon that follows the key. */
  function AfterColon(s: string, key: string): (i: Option<nat>)
    ensures i.Some? ==> i.value <= |s|
  {
    var pos := KeyEnd(s, key, 0);
    if pos.None? then None
    else
      var i := Skip(s, pos.value, BEFORE_COLON);
      if i >= |s| || s[i] != ':' then None else Some(i + 1)
  }

  method SkipLoop(s: string, i: nat, chars: set<char>) returns (j: nat)
    requires i <= |s|
    ensures j == Skip(s, i, chars)
  {
    j := i;
    while j < |s| && s[j] in chars
      invariant i <= j <= |s| && Skip(s, j, chars) == Skip(s, i, chars)
    {
      j := j + 1;
    }
  }

  method FindColon(s: string, key: string) returns (i: Option<nat>)
    ensures i == AfterColon(s, key)
  {
    var pos := FindKey(s, key);
    if pos.None? {
      return None;
    }
    var j := SkipLoop(s, pos.value, BEFORE_COLON);
    if j >= |s| || s[j] != ':' {
      return None;
    }
    i := Some(j + 1);
  }

  // ---- String values ----

  /** The value text of a key, quoted or bare, before it is cut to the caller's buffer. */
  function StringValue(s: string, key: string): Option<string> {
    var colon := AfterColon(s, key);
    if colon.None? then None
    else
      var i := Skip(s, colon.value, BLANKS);
      if i >= |s| then None
      else if s[i] == '"' then Some(Take(s, i + 1, QUOTES))
      else Some(Take(s, i, BARE_ENDS))
  }

  /** What fits a buffer of maxOut bytes with its terminator. */
  function Cut(v: string, maxOut: nat): (cut: string)
    requires maxOut >= 1
    ensures |cut| < maxOut && cut <= v
  {
    v[..Min(|v|, maxOut - 1)]
  }

  /** What a C string buffer holds after text was written to its front. */
  function Written(buf: string, text: string): string
    requires |text| < |buf|
  {
    text + ['\0'] + buf[|text| + 1..]
  }

  method JsonExtractString(s: string, key: string, out: array<char>, maxOut: nat) returns (found: bool)
    requires 1 <= maxOut <= out.Length
    modifies out
    ensures StringValue(s, key).None? ==> !found && out[..] == old(out[..])
    ensures StringValue(s, key).Some? ==>
              var cut := Cut(StringValue(s, key).value, maxOut);
              out[..] == Written(old(out[..]), cut) && found == (cut != "")
  {
    hide AfterColon, Skip, Take, Written, Cut;
    var colon := FindColon(s, key);
    if colon.None? {
      return false;
    }
    var i := SkipLoop(s, colon.value, BLANKS);
    if i >= |s| {
      return false;
    }
    if s[i] == '"' {
      found := CopyValue(s, i + 1, QUOTES, out, maxOut);
    } else {
      found := CopyValue(s, i, BARE_ENDS, out, maxOut);
    }
  }

  /** Copy up to an end character or until the buffer is full, and terminate. */
  method CopyValue(s: string, start: nat, ends: set<char>, out: array<char>, maxOut: nat) returns (found: bool)
    requires start <= |s| && 1 <= maxOut <= out.Length
    modifies out
    ensures var cut := Cut(Take(s, start, ends), maxOut);
            out[..] == Written(old(out[..]), cut) && found == (cut != "")
  {
    ghost var before := out[..];
    var i, o := start, 0;
    while i < |s| && s[i] !in ends && o < maxOut - 1
      invariant start <= i <= |s| && o == i - start <= maxOut - 1
      invariant forall k :: start <= k < i ==> s[k] !in ends
      invariant forall k :: 0 <= k < o ==> out[k] == s[start + k]
      invariant forall k :: o <= k < out.Length ==> out[k] == before[k]
    {
      out[o] := s[i];
      o, i := o + 1, i + 1;
    }
    TakeAtLeast(s, start, i, ends);
    ghost var v := Take(s, start, ends);
    assert i < |s| && s[i] in ends ==> |v| == i - start;
    hide Take;
    assert Cut(v, maxOut) == s[start..i];
    out[o] := '\0';
    found := o > 0;
    WrittenIs(out[..], before, s[start..i]);
  }

  lemma WrittenIs(now: string, before: string, text: string)
    requires |text| < |before| == |now|
    requires forall k :: 0 <= k < |text| ==> now[k] == text[k]
    requires now[|text|] == '\0' && forall k :: |text| < k < |now| ==> now[k] == before[k]
    ensures now == Written(before, text)
  {
  }

  lemma {:induction false} TakeAtLeast(s: string, start: nat, i: nat, ends: set<char>)
    requires start <= i <= |s| && forall k :: start <= k < i ==> s[k] !in ends
    ensures |Take(s, start, ends)| >= i - start
    ensures i == |s| || s[i] in ends ==> |Take(s, start, ends)| == i - start
    decreases i - start
  {
    if start < i {
      TakeAtLeast(s, start + 1, i, ends);
    }
  }

  // ---- Extraction undoes printing ----

  predicate AllIn(s: string, chars: set<char>) { forall i :: 0 <= i < |s| ==> s[i] in chars }

  /** A printed member: the key in any case, its closing quote, blanks around the colon, and the value text. */
  function Member(key: string, ws1: string, ws2: string, value: string): string {
    key + "\"" + ws1 + ":" + ws2 + value
  }

  /** The member's key is the first match in the buffer. */
  ghost predicate FirstMember(pre: string, printed: string, key: string, s: string)
    requires |pre| <= |s|
  {
    && SameNoCase(printed, key) && StartsWord(s, |pre|)
    && forall i :: 0 <= i < |pre| ==> !KeyMatch(s, i, key)
  }

  lemma ColonOfMember(pre: string, printed: string, key: string, ws1: string, ws2: string, value: string, suf: string)
    requires AllIn(ws1, BEFORE_COLON)
    requires FirstMember(pre, printed, key, pre + Member(printed, ws1, ws2, value) + suf)
    ensures var s := pre + Member(printed, ws1, ws2, value) + suf;
            var i := |pre| + |printed| + 1 + |ws1|;
            AfterColon(s, key) == Some(i + 1) && s[i + 1..] == ws2 + value + suf
  {
    var s := pre + Member(printed, ws1, ws2, value) + suf;
    var at := |pre| + |printed|;
    MemberParts(pre, printed, ws1, ws2, value, suf);
    hide Member, KeyEnd;
    KeyEndIsFirst(s, key, 0, |pre|);
    var i := at + 1 + |ws1|;
    forall k | at <= k < i
      ensures s[k] in BEFORE_COLON
    {
      if k > at {
        assert s[k] == s[at + 1..i][k - (at + 1)];
      }
    }
    SkipOver(s, at, i, BEFORE_COLON);
  }

  lemma MemberParts(pre: string, printed: string, ws1: string, ws2: string, value: string, suf: string)
    ensures var s := pre + Member(printed, ws1, ws2, value) + suf;
            var at := |pre| + |printed|;
            var i := at + 1 + |ws1|;
            && i < |s| && s[|pre|..at] == printed && s[at] == '"' && s[at + 1..i] == ws1 && s[i] == ':'
            && s[i + 1..] == ws2 + value + suf
  {
  }

  /** Where three pieces of a tail are in the whole. */
  lemma Within(s: string, c: nat, a: string, b: string, d: string)
    requires c <= |s| && s[c..] == a + b + d
    ensures c + |a| + |b| + |d| == |s|
    ensures s[c + |a|..c + |a| + |b|] == b
    ensures d != "" ==> s[c + |a| + |b|] == d[0]
  {
    var t := s[c..];
    assert t[|a|..|a| + |b|] == b;
    assert d != "" ==> t[|a| + |b|] == d[0];
  }

  lemma SkipBlanks(s: string, c: nat, ws: string, more: string, chars: set<char>)
    requires c <= |s| && s[c..] == "" + ws + more && AllIn(ws, chars) && (more != "" ==> more[0] !in chars)
    ensures Skip(s, c, chars) == c + |ws|
  {
    Within(s, c, "", ws, more);
    forall k | c <= k < c + |ws|
      ensures s[k] in chars
    {
      assert s[k] == s[c..c + |ws|][k - c];
    }
    SkipOver(s, c, c + |ws|, chars);
  }

  predicate NoneIn(s: string, chars: set<char>) { forall i :: 0 <= i < |s| ==> s[i] !in chars }

  lemma TakeWithin(s: string, c: nat, a: string, val: string, d: string, i: nat, ends: set<char>)
    requires c <= |s| && s[c..] == a + val + d && (d != "" ==> d[0] in ends) && NoneIn(val, ends) && i == c + |a|
    ensures i <= |s| && Take(s, i, ends) == val
  {
    Within(s, c, a, val, d);
    forall k | i <= k < i + |val|
      ensures s[k] !in ends
    {
      assert s[k] == s[i..i + |val|][k - i] == val[k - i];
    }
    TakeAtLeast(s, i, i + |val|, ends);
  }

  function Quoted(val: string): string { "\"" + val + "\"" }

  lemma QuotedStart(s: string, c: nat, ws: string, val: string, suf: string)
    requires c <= |s| && s[c..] == ws + Quoted(val) + suf && AllIn(ws, BLANKS)
    ensures Skip(s, c, BLANKS) == c + |ws| < |s| && s[c + |ws|] == '"'
  {
    var more := Quoted(val) + suf;
    assert more[0] == '"';
    assert s[c..] == "" + ws + more == ws + more + "";
    hide Quoted, Skip, AllIn;
    Within(s, c, ws, more, "");
    SkipBlanks(s, c, ws, more, BLANKS);
    assert s[c + |ws|] == s[c + |ws|..c + |ws| + |more|][0];
  }

  lemma Regroup(ws: string, val: string, suf: string)
    ensures ws + Quoted(val) + suf == (ws + "\"") + val + ("\"" + suf)
  {
  }

  /** A quoted value without inner quotes is extracted as it was printed, whatever surrounds the member. */
  lemma StringUndoesPrint(pre: string, printed: string, key: string, ws1: string, ws2: string, val: string, suf: string)
    requires AllIn(ws1, BEFORE_COLON) && AllIn(ws2, BLANKS) && NoneIn(val, QUOTES)
    requires FirstMember(pre, printed, key, pre + Member(printed, ws1, ws2, Quoted(val)) + suf)
    ensures StringValue(pre + Member(printed, ws1, ws2, Quoted(val)) + suf, key) == Some(val)
  {
    hide AfterColon, Member, FirstMember, Skip, Take, AllIn, NoneIn, Quoted;
    ColonOfMember(pre, printed, key, ws1, ws2, Quoted(val), suf);
    var s, c := pre + Member(printed, ws1, ws2, Quoted(val)) + suf, |pre| + |printed| + 1 + |ws1| + 1;
    QuotedStart(s, c, ws2, val, suf);
    Regroup(ws2, val, suf);
    var a, d := ws2 + "\"", "\"" + suf;
    TakeWithin(s, c, a, val, d, c + |ws2| + 1, QUOTES);
  }

  lemma BareStart(s: string, c: nat, ws: string, val: string, suf: string)
    requires c <= |s| && s[c..] == ws + val + suf && AllIn(ws, BLANKS)
    requires val != "" && val[0] !in BLANKS
    ensures Skip(s, c, BLANKS) == c + |ws| < |s| && s[c + |ws|] == val[0]
  {
    assert s[c..] == "" + ws + (val + suf);
    hide Skip, AllIn;
    Within(s, c, ws, val, suf);
    SkipBlanks(s, c, ws, val + suf, BLANKS);
    assert s[c + |ws|] == s[c + |ws|..c + |ws| + |val|][0];
  }

  /** So is a bare value, up to the comma, brace or blank that ends it. */
  lemma BareUndoesPrint(pre: string, printed: string, key: string, ws1: string, ws2: string, val: string, suf: string)
    requires AllIn(ws1, BEFORE_COLON) && AllIn(ws2, BLANKS) && NoneIn(val, BARE_ENDS)
    requires val != "" && val[0] !in BLANKS && val[0] != '"' && (suf != "" ==> suf[0] in BARE_ENDS)
    requires FirstMember(pre, printed, key, pre + Member(printed, ws1, ws2, val) + suf)
    ensures StringValue(pre + Member(printed, ws1, ws2, val) + suf, key) == Some(val)
  {
    hide AfterColon, Member, FirstMember, Skip, Take, AllIn, NoneIn;
    ColonOfMember(pre, printed, key, ws1, ws2, val, suf);
    var s, c := pre + Member(printed, ws1, ws2, val) + suf, |pre| + |printed| + 1 + |ws1| + 1;
    BareStart(s, c, ws2, val, suf);
    TakeWithin(s, c, ws2, val, suf, c + |ws2|, BARE_ENDS);
  }

  // ---- Decimal numbers ----

  /** The leading run of digits from i on. */
  function DigitRun(s: string, i: nat): (v: string)
    requires i <= |s|
    ensures i + |v| <= |s| && v == s[i..i + |v|] && AllDigits(v)
    decreases |s| - i
  {
    if i < |s| && IsDigit(s[i]) then [s[i]] + DigitRun(s, i + 1) else ""
  }

  lemma {:induction false} DigitRunIs(s: string, i: nat, j: nat)
    requires i <= j <= |s| && (forall k :: i <= k < j ==> IsDigit(s[k])) && (j < |s| ==> !IsDigit(s[j]))
    ensures DigitRun(s, i) == s[i..j]
    decreases j - i
  {
    if i < j {
      DigitRunIs(s, i + 1, j);
      assert s[i..j] == [s[i]] + s[i + 1..j];
    }
  }

  /** The 16-bit number a key's value starts with. */
  function Uint16Value(s: string, key: string): (n: Option<nat>)
    ensures n.Some? ==> n.value < 0x1_0000
  {
    var colon := AfterColon(s, key);
    if colon.None? then None
    else
      var i := Skip(s, colon.value, BEFORE_NUMBER);
      var digits := DigitRun(s, i);
      if digits == "" then None else Some(DecimalValue(digits) % 0x1_0000)
  }

  method ParseInt(s: string, start: nat) returns (r: Option<nat>)
    requires start <= |s|
    ensures r == if DigitRun(s, start) == "" then None else Some(DecimalValue(DigitRun(s, start)) % 0x1_0000)
  {
    var val, i := 0, start;
    while i < |s| && IsDigit(s[i])
      invariant start <= i <= |s| && AllDigits(s[start..i]) && val == DecimalValue(s[start..i])
    {
      assert s[start..i + 1][..i - start] == s[start..i];
      val := val * 10 + (s[i] as int - '0' as int);
      i := i + 1;
    }
    forall k | start <= k < i
      ensures IsDigit(s[k])
    {
      assert s[start..i][k - start] == s[k];
    }
    DigitRunIs(s, start, i);
    r := if i > start then Some(val % 0x1_0000) else None;
  }

  /** None leaves the caller's number as it was. */
  method JsonExtractUint16(s: string, key: string) returns (n: Option<nat>)
    ensures n == Uint16Value(s, key)
  {
    hide AfterColon, Skip, DigitRun;
    var colon := FindColon(s, key);
    if colon.None? {
      return None;
    }
    var i := SkipLoop(s, colon.value, BEFORE_NUMBER);
    if i >= |s| {
      NoDigitsAtEnd(s);
      return None;
    }
    n := ParseInt(s, i);
  }

  lemma NoDigitsAtEnd(s: string)
    ensures DigitRun(s, |s|) == ""
  {
  }

  lemma NumberAt(s: string, c: nat, ws: string, digits: string, suf: string)
    requires c <= |s| && s[c..] == ws + digits + suf && AllIn(ws, BEFORE_NUMBER)
    requires digits != "" && AllDigits(digits) && (suf != "" ==> !IsDigit(suf[0]))
    ensures DigitRun(s, Skip(s, c, BEFORE_NUMBER)) == digits
  {
    hide Skip, DigitRun, AllIn;
    var i := c + |ws|;
    Within(s, c, ws, digits, suf);
    assert s[c..] == "" + ws + (digits + suf);
    SkipBlanks(s, c, ws, digits + suf, BEFORE_NUMBER);
    forall k | i <= k < i + |digits|
      ensures IsDigit(s[k])
    {
      assert s[k] == s[i..i + |digits|][k - i];
    }
    DigitRunIs(s, i, i + |digits|);
  }

  /** A printed number comes back, truncated to sixteen bits only if it was larger. */
  lemma NumberUndoesPrint(pre: string, printed: string, key: string, ws1: string, ws2: string, n: nat, suf: string)
    requires AllIn(ws1, BEFORE_COLON) && AllIn(ws2, BEFORE_NUMBER) && (suf != "" ==> !IsDigit(suf[0]))
    requires FirstMember(pre, printed, key, pre + Member(printed, ws1, ws2, Decimal(n)) + suf)
    ensures Uint16Value(pre + Member(printed, ws1, ws2, Decimal(n)) + suf, key) == Some(n % 0x1_0000)
    ensures n <= 65535 ==> Uint16Value(pre + Member(printed, ws1, ws2, Decimal(n)) + suf, key) == Some(n)
  {
    hide AfterColon, Member, FirstMember, Decimal, DecimalValue, Skip, DigitRun, AllIn, AllDigits;
    ColonOfMember(pre, printed, key, ws1, ws2, Decimal(n), suf);
    var s, c := pre + Member(printed, ws1, ws2, Decimal(n)) + suf, |pre| + |printed| + 1 + |ws1| + 1;
    NumberAt(s, c, ws2, Decimal(n), suf);
    DecimalRoundTrip(n);
  }

  // ---- Members of a JSON text ----

  const JSON_SPACE: set<char> := {' ', '\t', '\n', '\r'}

  predicate SameLetter(a: char, b: char) {
    a == b || ('A' <= a <= 'Z' && b as int == a as int + 32) || ('A' <= b <= 'Z' && a as int == b as int + 32)
  }

  /** A key is matched in any case, after one of six characters and before one of four. */
  lemma KeyMatchExactly(s: string, i: nat, key: string)
    ensures KeyMatch(s, i, key)
            <==> && i + |key| < |s|
                 && (forall k :: 0 <= k < |key| ==> SameLetter(s[i + k], key[k]))
                 && (i > 0 ==> s[i - 1] in ['"', '{', ',', ' ', '\t', '\n'])
                 && s[i + |key|] in ['"', ':', ' ', '\t']
  {
    if i + |key| <= |s| {
      var t := s[i..i + |key|];
      assert forall k :: 0 <= k < |key| ==> (ToLower(t[k]) == ToLower(key[k]) <==> SameLetter(s[i + k], key[k]));
    }
  }

  lemma QuotedMember(pre: string, member: string, suf: string)
    ensures pre + "\"" + member + suf == (pre + "\"") + member + suf
    ensures (pre + "\"" + member + suf)[|pre|] == '"'
  {
  }

  /** The printed key, quoted, is the first match in the text. */
  ghost predicate FirstQuoted(pre: string, printed: string, key: string, s: string) {
    SameNoCase(printed, key) && forall i :: 0 <= i <= |pre| ==> !KeyMatch(s, i, key)
  }

  lemma QuotedIsFirst(pre: string, printed: string, key: string, member: string, suf: string)
    requires FirstQuoted(pre, printed, key, pre + "\"" + member + suf)
    ensures FirstMember(pre + "\"", printed, key, (pre + "\"") + member + suf)
  {
    QuotedMember(pre, member, suf);
    assert |pre + "\""| == |pre| + 1;
  }

  lemma SpaceIsSkipped(ws: string)
    requires AllIn(ws, JSON_SPACE)
    ensures AllIn(ws, BEFORE_COLON) && AllIn(ws, BLANKS)
  {
  }

  /** A string member comes back whatever white space JSON allows around its colon. */
  lemma JsonStringReadsBack(pre: string, printed: string, key: string, ws1: string, ws2: string, val: string,
                            suf: string)
    requires AllIn(ws1, JSON_SPACE) && AllIn(ws2, JSON_SPACE) && '"' !in val
    requires FirstQuoted(pre, printed, key, pre + "\"" + Member(printed, ws1, ws2, Quoted(val)) + suf)
    ensures StringValue(pre + "\"" + Member(printed, ws1, ws2, Quoted(val)) + suf, key) == Some(val)
  {
    var member := Member(printed, ws1, ws2, Quoted(val));
    QuotedIsFirst(pre, printed, key, member, suf);
    SpaceIsSkipped(ws1);
    SpaceIsSkipped(ws2);
    assert NoneIn(val, QUOTES);
    hide StringValue, FirstMember, Member, Quoted, AllIn, NoneIn;
    StringUndoesPrint(pre + "\"", printed, key, ws1, ws2, val, suf);
  }

  /** So does a bare value, up to the comma, closing brace, blank or line break after it. */
  lemma JsonBareReadsBack(pre: string, printed: string, key: string, ws1: string, ws2: string, val: string, suf: string)
    requires AllIn(ws1, JSON_SPACE) && AllIn(ws2, JSON_SPACE)
    requires val != "" && val[0] != '"' && val[0] != '\t' && NoneIn(val, {',', '}', ' ', '\r', '\n'})
    requires suf != "" ==> suf[0] in [',', '}', ' ', '\r', '\n']
    requires FirstQuoted(pre, printed, key, pre + "\"" + Member(printed, ws1, ws2, val) + suf)
    ensures StringValue(pre + "\"" + Member(printed, ws1, ws2, val) + suf, key) == Some(val)
  {
    QuotedIsFirst(pre, printed, key, Member(printed, ws1, ws2, val), suf);
    SpaceIsSkipped(ws1);
    SpaceIsSkipped(ws2);
    assert NoneIn(val, BARE_ENDS);
    hide StringValue, FirstMember, Member, AllIn, NoneIn;
    BareUndoesPrint(pre + "\"", printed, key, ws1, ws2, val, suf);
  }

  predicate Breaks(ws: string) { '\n' in ws || '\r' in ws }

  /**
   * A number member comes back exactly when no line break stands between its colon and its digits: the number
   * extractor, unlike the string extractor, does not skip breaks, and then finds nothing.
   */
  lemma JsonNumberReadsBack(pre: string, printed: string, key: string, ws1: string, ws2: string, n: nat, suf: string)
    requires AllIn(ws1, JSON_SPACE) && AllIn(ws2, JSON_SPACE) && (suf != "" ==> !IsDigit(suf[0]))
    requires FirstQuoted(pre, printed, key, pre + "\"" + Member(printed, ws1, ws2, Decimal(n)) + suf)
    ensures Uint16Value(pre + "\"" + Member(printed, ws1, ws2, Decimal(n)) + suf, key)
            == if Breaks(ws2) then None else Some(n % 0x1_0000)
  {
    var member := Member(printed, ws1, ws2, Decimal(n));
    QuotedIsFirst(pre, printed, key, member, suf);
    SpaceIsSkipped(ws1);
    if Breaks(ws2) {
      BreakHidesNumber(pre + "\"", printed, key, ws1, ws2, Decimal(n), suf);
    } else {
      assert AllIn(ws2, BEFORE_NUMBER);
      hide Uint16Value, FirstMember, Member, AllIn, Decimal, Breaks;
      NumberUndoesPrint(pre + "\"", printed, key, ws1, ws2, n, suf);
    }
  }

  lemma BreakHidesNumber(pre: string, printed: string, key: string, ws1: string, ws2: string, value: string,
                         suf: string)
    requires AllIn(ws1, BEFORE_COLON) && AllIn(ws2, JSON_SPACE) && Breaks(ws2)
    requires FirstMember(pre, printed, key, pre + Member(printed, ws1, ws2, value) + suf)
    ensures Uint16Value(pre + Member(printed, ws1, ws2, value) + suf, key) == None
  {
    var s, c := pre + Member(printed, ws1, ws2, value) + suf, |pre| + |printed| + 1 + |ws1| + 1;
    hide Member, FirstMember, AfterColon, Breaks, AllIn, DigitRun;
    ColonOfMember(pre, printed, key, ws1, ws2, value, suf);
    NoDigitsAfterBreak(s, c, ws2, value, suf);
  }

  lemma NoDigitsAfterBreak(s: string, c: nat, ws: string, value: string, suf: string)
    requires c <= |s| && s[c..] == ws + value + suf && AllIn(ws, JSON_SPACE) && Breaks(ws)
    ensures DigitRun(s, Skip(s, c, BEFORE_NUMBER)) == ""
  {
    var k := FirstBreak(ws);
    var more := ws[k..] + value + suf;
    assert s[c..] == "" + ws[..k] + more by {
      assert ws == ws[..k] + ws[k..];
    }
    assert more[0] == ws[k];
    hide Skip, AllIn, Breaks;
    SkipBlanks(s, c, ws[..k], more, BEFORE_NUMBER);
    assert s[c + k] == s[c..][k] == more[0];
  }

  /** Where the first line break is. */
  lemma FirstBreak(ws: string) returns (k: nat)
    requires Breaks(ws) && AllIn(ws, JSON_SPACE)
    ensures k < |ws| && (ws[k] == '\n' || ws[k] == '\r') && AllIn(ws[..k], BEFORE_NUMBER)
  {
    k := 0;
    while ws[k] != '\n' && ws[k] != '\r'
      invariant k < |ws| && forall i :: 0 <= i < k ==> ws[i] != '\n' && ws[i] != '\r'
      decreases |ws| - k
    {
      assert ws[k] in JSON_SPACE;
      k := k + 1;
    }
  }
}
