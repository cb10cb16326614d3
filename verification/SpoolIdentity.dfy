/** Which spool a tag belongs to: by the number it carries, or by its UID when no other spool claims it. */
module SpoolIdentity {
  import opened Wrappers
  import opened Text
  import opened TagJson
  import opened TagFields

  // ---- UIDs ----

  function Hexed(c: char): string { if IsHex(c) then [UpperChar(c)] else "" }

  /** Only the hexadecimal digits of a UID, in upper case. */
  function NormaliseUid(uid: string): (n: string)
    ensures |n| <= |uid|
  {
    if uid == "" then "" else Hexed(uid[0]) + NormaliseUid(uid[1..])
  }

  lemma Regroup(a: string, b: string, c: string)
    ensures a + (b + c) == a + b + c
  {
  }

  lemma {:induction false} NormaliseConcat(a: string, b: string)
    ensures NormaliseUid(a + b) == NormaliseUid(a) + NormaliseUid(b)
  {
    hide Hexed;
    if a == "" {
      assert a + b == b;
    } else {
      assert (a + b)[0] == a[0] && (a + b)[1..] == a[1..] + b;
      NormaliseConcat(a[1..], b);
      Regroup(Hexed(a[0]), NormaliseUid(a[1..]), NormaliseUid(b));
    }
  }

  lemma {:induction false} NormaliseDropsSeparators(sep: string)
    requires forall i :: 0 <= i < |sep| ==> !IsHex(sep[i])
    ensures NormaliseUid(sep) == ""
  {
    if sep != "" {
      NormaliseDropsSeparators(sep[1..]);
    }
  }

  lemma {:induction false} NormaliseIgnoresCase(s: string)
    ensures NormaliseUid(Upper(s)) == NormaliseUid(s)
  {
    if s != "" {
      assert Upper(s)[1..] == Upper(s[1..]);
      NormaliseIgnoresCase(s[1..]);
    }
  }

  lemma HexedIsNormal(c: char)
    ensures NormaliseUid(Hexed(c)) == Hexed(c)
  {
    if IsHex(c) {
      assert Hexed(c)[1..] == "";
    }
  }

  lemma {:induction false} NormaliseIsIdempotent(s: string)
    ensures NormaliseUid(NormaliseUid(s)) == NormaliseUid(s)
  {
    if s != "" {
      NormaliseIsIdempotent(s[1..]);
      HexedIsNormal(s[0]);
      NormaliseConcat(Hexed(s[0]), NormaliseUid(s[1..]));
    }
  }

  /** An anticollision frame: the cascade tag 88 and the first three bytes. */
  predicate CascadeOf(t: string, c: string) { |t| == 8 && "88" <= t && |c| >= 6 && t[2..] <= c }

  /** A four-byte read of a UID of at least seven bytes. */
  predicate TruncationOf(t: string, c: string) { |t| == 8 && |c| >= 14 && t <= c }

  predicate SameTag(t: string, c: string) {
    if t == "" || c == "" then false
    else if t == c then true
    else if CascadeOf(t, c) || CascadeOf(c, t) then true
    else TruncationOf(t, c) || TruncationOf(c, t)
  }

  predicate UidMatches(tagUid: string, candidateUid: string) {
    SameTag(NormaliseUid(tagUid), NormaliseUid(candidateUid))
  }

  lemma NormaliseIsBlind(a: string, sep: string, b: string)
    requires forall i :: 0 <= i < |sep| ==> !IsHex(sep[i])
    ensures NormaliseUid(a + sep + b) == NormaliseUid(a + b) == NormaliseUid(Upper(a + b))
  {
    hide NormaliseUid;
    NormaliseConcat(a + sep, b);
    NormaliseConcat(a, sep);
    NormaliseDropsSeparators(sep);
    NormaliseConcat(a, b);
    NormaliseIgnoresCase(a + b);
  }

  /** Matching looks neither at who is asked, nor at separators, nor at case. */
  lemma MatchingIsBlind(a: string, sep: string, b: string, other: string)
    requires forall i :: 0 <= i < |sep| ==> !IsHex(sep[i])
    ensures UidMatches(a + sep + b, other) == UidMatches(Upper(a + b), other)
    ensures UidMatches(a + sep + b, other) == UidMatches(other, a + b)
  {
    NormaliseIsBlind(a, sep, b);
    hide NormaliseUid, CascadeOf, TruncationOf;
  }

  /** A seven-byte UID matches both short reads of itself. */
  lemma ShortReadsMatch(uid: string)
    requires |NormaliseUid(uid)| == 14
    ensures UidMatches(uid, "88" + NormaliseUid(uid)[..6]) && UidMatches(uid, NormaliseUid(uid)[..8])
  {
    hide NormaliseUid;
    var n := NormaliseUid(uid);
    NormaliseIsIdempotent(uid);
    PrefixIsNormal(n, 6);
    PrefixIsNormal(n, 8);
    NormaliseConcat("88", n[..6]);
    CascadeTagKept();
    assert ("88" + n[..6])[2..] == n[..6];
  }

  lemma PrefixIsNormal(n: string, k: nat)
    requires NormaliseUid(n) == n && k <= |n|
    ensures NormaliseUid(n[..k]) == n[..k]
  {
    assert n == n[..k] + n[k..];
    NormaliseConcat(n[..k], n[k..]);
  }

  lemma CascadeTagKept()
    ensures NormaliseUid("88") == "88"
  {
    assert "88"[1..] == "8" && "8"[1..] == "";
    assert NormaliseUid("8") == "8";
  }

  /** What a reader gets of a longer UID in one frame: the cascade tag and three bytes, or the first four of seven. */
  predicate ShortRead(a: string, b: string) {
    |a| == 8 && ((|b| >= 6 && a == "88" + b[..6]) || (|b| >= 14 && a == b[..8]))
  }

  /** Two normal forms of one tag. */
  predicate Related(a: string, b: string) { a != "" && b != "" && (a == b || ShortRead(a, b) || ShortRead(b, a)) }

  /** Exactly equal UIDs and short reads match. */
  lemma MatchesExactly(x: string, y: string)
    ensures UidMatches(x, y) <==> Related(NormaliseUid(x), NormaliseUid(y))
  {
    hide NormaliseUid, CascadeOf, TruncationOf, ShortRead;
    ShortReadExactly(NormaliseUid(x), NormaliseUid(y));
    ShortReadExactly(NormaliseUid(y), NormaliseUid(x));
  }

  lemma ShortReadExactly(a: string, b: string)
    ensures ShortRead(a, b) <==> CascadeOf(a, b) || TruncationOf(a, b)
  {
    if |a| == 8 {
      assert a == a[..2] + a[2..];
      assert |b| >= 6 ==> ("88" + b[..6])[2..] == b[..6] && ("88" + b[..6])[..2] == "88";
      assert a[2..] <= b <==> |b| >= 6 && b[..6] == a[2..];
      assert a <= b <==> |b| >= 8 && b[..8] == a;
      assert "88" <= a <==> a[..2] == "88";
    }
  }

  /** A four-byte UID matches a seven-byte one exactly when it is one of its two short reads. */
  lemma FourBytesMatchSeven(x: string, y: string)
    requires |NormaliseUid(x)| == 8 && |NormaliseUid(y)| == 14
    ensures UidMatches(x, y)
            <==> NormaliseUid(x) == "88" + NormaliseUid(y)[..6] || NormaliseUid(x) == NormaliseUid(y)[..8]
  {
    hide NormaliseUid;
    MatchesExactly(x, y);
  }

  /** Only a four-byte UID can match anything but itself. */
  lemma FullUidsMatchOnlyThemselves(a: string, b: string)
    requires |NormaliseUid(a)| != 8 && |NormaliseUid(b)| != 8
    ensures UidMatches(a, b) <==> NormaliseUid(a) == NormaliseUid(b) != ""
  {
  }

  // ---- The number on the tag ----

  /** The fields of a decoded tag as text; a field that is absent or null is not in the map. */
  type Fields = map<string, string>

  const SPOOL_KEYS: seq<string> := ["sku", "SKU", "spool_id", "spoolId", "spool", "sm_id", "spoolman_id", "id"]

  predicate IsSkuNumber(s: string) {
    && 3 <= |s| <= 9 && UpperChar(s[0]) == 'S' && UpperChar(s[1]) == 'M' && AllDigits(s[2..])
  }

  function SpoolFromText(text: string): (id: Option<int>) {
    var s := Trim(text);
    if IsSkuNumber(s) then Some(DecimalValue(s[2..]))
    else if s != "" && AllDigits(s) && DecimalValue(s) > 0 then Some(DecimalValue(s))
    else None
  }

  /** The first key, from the k-th on, whose text is a spool number decides. */
  function SpoolNumber(rec: Fields, k: nat): (id: Option<int>)
    requires k <= |SPOOL_KEYS|
    decreases |SPOOL_KEYS| - k
  {
    if k == |SPOOL_KEYS| then None
    else if SPOOL_KEYS[k] in rec && SpoolFromText(rec[SPOOL_KEYS[k]]).Some? then SpoolFromText(rec[SPOOL_KEYS[k]])
    else SpoolNumber(rec, k + 1)
  }

  method SpoolFromRecord(rec: Fields) returns (id: Option<int>)
    ensures id == SpoolNumber(rec, 0)
  {
    hide SpoolFromText;
    for k := 0 to |SPOOL_KEYS|
      invariant SpoolNumber(rec, 0) == SpoolNumber(rec, k)
    {
      var key := SPOOL_KEYS[k];
      if key in rec {
        id := SpoolFromText(rec[key]);
        if id.Some? {
          return;
        }
      }
    }
    id := None;
  }

  /** A tag written for spool n, by number or as SM<n>, is read as spool n. */
  lemma PrintedSpoolReadsBack(n: nat)
    requires n > 0
    ensures SpoolFromText(Decimal(n)) == Some(n)
    ensures SpoolFromText("SM" + Decimal(n)) == if n < 10_000_000 then Some(n) else None
  {
    var d := Decimal(n);
    DecimalRoundTrip(n);
    DigitsKeepTrim(d);
    assert !IsSkuNumber(d) by {
      assert IsDigit(d[0]);
    }
    var s := "SM" + d;
    assert s[2..] == d && s[|s| - 1] == d[|d| - 1];
    TrimKeeps(s);
    assert Power10(7) == 10_000_000;
    if n < 10_000_000 {
      DecimalLength(n, 7);
    } else {
      DecimalLengthAtLeast(n, 7);
      assert !IsDigit(s[0]);
    }
  }

  /** Padding aside, a spool number is SM in any case and one to seven digits, or digits alone that are not zero. */
  lemma SpoolTextExactly(a: string, s: string, b: string, d: string, n: int)
    requires Blank(a) && Blank(b) && Trimmed(s) && AllDigits(d) && (s == d || Upper(s) == "SM" + d)
    ensures SpoolFromText(a + s + b) == Some(n)
            <==> DecimalValue(d) == n && if s == d then n > 0 else 1 <= |d| <= 7
  {
    TrimDrops(a, s, b);
    hide Trim;
    if s == d {
      assert !IsSkuNumber(s) by {
        assert |s| > 0 ==> IsDigit(s[0]);
      }
      assert s == "" ==> DecimalValue(d) == 0;
    } else {
      SplitSku(s, d);
      assert !IsDigit(s[0]);
    }
  }

  lemma SplitSku(s: string, d: string)
    requires AllDigits(d) && Upper(s) == "SM" + d
    ensures |s| == |d| + 2 && s[2..] == d && UpperChar(s[0]) == 'S' && UpperChar(s[1]) == 'M'
  {
    assert Upper(s)[0] == 'S' && Upper(s)[1] == 'M';
    forall i | 0 <= i < |d|
      ensures UpperChar(s[2..][i]) == d[i]
    {
      assert Upper(s)[i + 2] == ("SM" + d)[i + 2];
    }
    UpperOfDigits(s[2..], d);
  }

  /** No other text is one. */
  lemma OtherTextIsNoSpool(a: string, s: string, b: string)
    requires Blank(a) && Blank(b) && Trimmed(s)
    requires forall d :: AllDigits(d) ==> s != d && Upper(s) != "SM" + d
    ensures SpoolFromText(a + s + b) == None
  {
    TrimDrops(a, s, b);
    hide Trim;
    SkuNumberSplits(s);
  }

  lemma SkuNumberSplits(s: string)
    ensures IsSkuNumber(s) ==> AllDigits(s[2..]) && Upper(s) == "SM" + s[2..]
  {
    if IsSkuNumber(s) {
      UpperDigits(s[2..]);
      assert Upper(s)[2..] == Upper(s[2..]);
    }
  }

  /** An article number FM<n> is never taken for a spool. */
  lemma ArticleIsNoSpool(n: nat)
    ensures SpoolFromText("FM" + Decimal(n)) == None
  {
    var d := Decimal(n);
    var s := "FM" + d;
    assert s[|s| - 1] == d[|d| - 1] && IsDigit(d[|d| - 1]) && !IsDigit(s[0]);
    TrimKeeps(s);
  }

  lemma TrimKeeps(s: string)
    requires s != "" ==> !IsSpace(s[0]) && !IsSpace(s[|s| - 1])
    ensures Trim(s) == s
  {
  }

  lemma DigitsKeepTrim(d: string)
    requires AllDigits(d)
    ensures Trim(d) == d
  {
    if d != "" {
      assert IsDigit(d[0]) && IsDigit(d[|d| - 1]);
    }
    TrimKeeps(d);
  }

  function Power10(k: nat): nat { if k == 0 then 1 else 10 * Power10(k - 1) }

  lemma {:induction false} DecimalLength(n: nat, k: nat)
    requires k > 0 && n < Power10(k)
    ensures |Decimal(n)| <= k
    decreases k
  {
    if n >= 10 {
      DecimalLength(n / 10, k - 1);
    }
  }

  lemma {:induction false} DecimalLengthAtLeast(n: nat, k: nat)
    requires n >= Power10(k)
    ensures |Decimal(n)| > k
    decreases k
  {
    if k > 0 {
      DecimalLengthAtLeast(n / 10, k - 1);
    }
  }

  /**
   * The SKU the firmware makes of a numeric sku n is one the host's reader takes for spool n. The two meet only
   * as strings: the driver drops a reply that carries such a decode (TagDecode.OnChipDecodeIsRefetched).
   */
  lemma TagToSpool(pre: string, printed: string, ws1: string, ws2: string, text: string, n: nat, suf: string)
    requires AllIn(ws1, BEFORE_COLON) && AllIn(ws2, BLANKS) && PrintsNumber(text, n, suf) && 0 < n < 10_000_000
    requires FirstMember(pre, printed, "sku", pre + Member(printed, ws1, ws2, text) + suf)
    ensures SpoolNumber(map["sku" := TagSku(pre + Member(printed, ws1, ws2, text) + suf)], 0) == Some(n)
  {
    hide Member, FirstMember, AllIn, TagSku, PrintsNumber, SpoolFromText;
    MillionsLength(n);
    NumericSku(pre, printed, ws1, ws2, text, n, suf);
    PrintedSpoolReadsBack(n);
    assert SPOOL_KEYS[0] == "sku";
  }

  lemma MillionsLength(n: nat)
    requires n < 10_000_000
    ensures |Decimal(n)| <= 7
  {
    assert Power10(7) == 10_000_000;
    DecimalLength(n, 7);
  }

  // ---- Resolution ----

  /** A backend spool; a UID field that is absent is empty. */
  datatype Spool = Spool(id: Option<int>, rfidUid: string, rfidUid2: string, previousTag: string, tag: string,
                         nfcUuid: string, nfcId: string)

  predicate Candidate(uid: string, candidate: string) { candidate != "" && UidMatches(uid, candidate) }

  predicate Claims(s: Spool, uid: string) {
    || Candidate(uid, s.rfidUid) || Candidate(uid, s.rfidUid2) || Candidate(uid, s.previousTag)
    || Candidate(uid, s.tag) || Candidate(uid, s.nfcUuid) || Candidate(uid, s.nfcId)
  }

  function TagUid(rec: Fields): string { if "uid" in rec then NormaliseUid(rec["uid"]) else "" }

  /** Some spool of the backend with this id claims the UID. */
  ghost predicate Claimed(backend: set<Spool>, uid: string, id: int) {
    exists s :: s in backend && s.id == Some(id) && Claims(s, uid)
  }

  ghost predicate OnlyClaim(backend: set<Spool>, uid: string, id: int) {
    Claimed(backend, uid, id) && forall other :: Claimed(backend, uid, other) ==> other == id
  }

  ghost predicate Listed(backend: set<Spool>, id: int) { exists s :: s in backend && s.id == Some(id) }

  /** The binding of a tag, in terms of which spools the backend has: a spool id, and whether it is confirmed. */
  ghost function Binding(rec: Fields, backend: Option<set<Spool>>): (r: (Option<int>, bool)) {
    var number := SpoolNumber(rec, 0);
    if number.Some? then (Some(number.value), backend.Some? && Listed(backend.value, number.value))
    else if TagUid(rec) == "" || backend.None? then (None, false)
    else if exists id :: OnlyClaim(backend.value, TagUid(rec), id) then
      var id :| OnlyClaim(backend.value, TagUid(rec), id);
      (Some(id), true)
    else (None, false)
  }

  ghost function AsSet(spools: seq<Spool>): set<Spool> { set s | s in spools }

  ghost function Members(spools: Option<seq<Spool>>): Option<set<Spool>> {
    if spools.None? then None else Some(AsSet(spools.value))
  }

  /** The answer is a function of the set of spools: their order and repetition cannot change it. */
  method Resolve(rec: Fields, spools: Option<seq<Spool>>) returns (id: Option<int>, backed: bool)
    ensures (id, backed) == Binding(rec, Members(spools))
  {
    hide Claims, NormaliseUid, SpoolNumber;
    var number := SpoolFromRecord(rec);
    if number.Some? {
      if spools.None? {
        return Some(number.value), false;
      }
      var listed := FindId(spools.value, number.value);
      return Some(number.value), listed;
    }
    var uid := TagUid(rec);
    if uid == "" || spools.None? {
      return None, false;
    }
    var matches := CollectMatches(uid, spools.value);
    SoleMatch(matches, AsSet(spools.value), uid);
    if |matches| == 1 {
      var only :| only in matches;
      return Some(only), true;
    }
    return None, false;
  }

  lemma SoleMatch(matches: set<int>, backend: set<Spool>, uid: string)
    requires forall id :: id in matches <==> Claimed(backend, uid, id)
    ensures |matches| == 1 ==> exists id :: id in matches
    ensures |matches| == 1 ==> forall id :: id in matches ==> OnlyClaim(backend, uid, id)
    ensures |matches| != 1 ==> forall id :: !OnlyClaim(backend, uid, id)
  {
    if |matches| == 1 {
      assert (forall id :: id !in matches) ==> matches == {};
      var id :| id in matches;
      assert |matches - {id}| == 0;
      assert forall other :: other in matches ==> other == id || other in matches - {id};
    }
    forall id | OnlyClaim(backend, uid, id)
      ensures |matches| == 1
    {
      assert id in matches;
      assert forall other :: other in matches ==> other == id;
      assert matches == {id};
    }
  }

  method FindId(spools: seq<Spool>, id: int) returns (found: bool)
    ensures found == Listed(AsSet(spools), id)
  {
    for k := 0 to |spools|
      invariant forall j :: 0 <= j < k ==> spools[j].id != Some(id)
    {
      if spools[k].id == Some(id) {
        return true;
      }
    }
    found := false;
  }

  /** The distinct ids of the spools that claim the UID. */
  method CollectMatches(uid: string, spools: seq<Spool>) returns (matches: set<int>)
    ensures forall id :: id in matches <==> Claimed(AsSet(spools), uid, id)
  {
    hide Claims;
    matches := {};
    for k := 0 to |spools|
      invariant forall id :: id in matches
                    <==> exists j :: 0 <= j < k && spools[j].id == Some(id) && Claims(spools[j], uid)
    {
      var s := spools[k];
      if s.id.Some? && Claims(s, uid) {
        matches := matches + {s.id.value};
      }
    }
  }

  /** A confirmed binding names a spool the backend has, and that spool carries the tag's number or claims its UID. */
  lemma BackedBySpool(rec: Fields, backend: set<Spool>)
    requires Binding(rec, Some(backend)).1
    ensures var id := Binding(rec, Some(backend)).0;
            id.Some? && exists s :: s in backend && s.id == id
                                    && (SpoolNumber(rec, 0) == Some(id.value) || Claims(s, TagUid(rec)))
  {
    hide Claims, SpoolNumber, TagUid;
    var number := SpoolNumber(rec, 0);
    var id := Binding(rec, Some(backend)).0.value;
    if number.Some? {
      var s :| s in backend && s.id == Some(id);
    } else {
      assert Claimed(backend, TagUid(rec), id);
    }
  }

  /** The UIDs a spool is known by. */
  function Uids(s: Spool): (uids: seq<string>)
    ensures |uids| == 6
  {
    [s.rfidUid, s.rfidUid2, s.previousTag, s.tag, s.nfcUuid, s.nfcId]
  }

  /** One of the spool's UIDs and this one, in normal form, are the tag's own or a short read of it. */
  predicate KnownBy(s: Spool, uid: string) { exists i :: 0 <= i < 6 && Related(uid, NormaliseUid(Uids(s)[i])) }

  lemma CandidateExactly(uid: string, candidate: string)
    requires NormaliseUid(uid) == uid
    ensures Candidate(uid, candidate) <==> Related(uid, NormaliseUid(candidate))
  {
    MatchesExactly(uid, candidate);
    assert NormaliseUid("") == "";
    hide UidMatches, ShortRead, NormaliseUid;
  }

  lemma ClaimsExactly(s: Spool, uid: string)
    requires NormaliseUid(uid) == uid
    ensures Claims(s, uid) <==> KnownBy(s, uid)
  {
    hide Candidate, Related, NormaliseUid;
    forall i | 0 <= i < 6
      ensures Candidate(uid, Uids(s)[i]) <==> Related(uid, NormaliseUid(Uids(s)[i]))
    {
      CandidateExactly(uid, Uids(s)[i]);
    }
    assert Uids(s)[0] == s.rfidUid && Uids(s)[1] == s.rfidUid2 && Uids(s)[2] == s.previousTag;
    assert Uids(s)[3] == s.tag && Uids(s)[4] == s.nfcUuid && Uids(s)[5] == s.nfcId;
  }

  lemma TagUidIsNormal(rec: Fields)
    ensures NormaliseUid(TagUid(rec)) == TagUid(rec)
  {
    if "uid" in rec {
      NormaliseIsIdempotent(rec["uid"]);
    }
  }

  /**
   * Without a number on the tag, it is bound to id exactly when some spool of that id is known by the tag's UID and
   * every spool known by it has that id.
   */
  lemma UidBindsExactly(rec: Fields, backend: set<Spool>, id: int)
    requires SpoolNumber(rec, 0).None?
    ensures Binding(rec, Some(backend)) == (Some(id), true)
            <==> && (exists s :: s in backend && s.id == Some(id) && KnownBy(s, TagUid(rec)))
                 && (forall s :: s in backend && s.id.Some? && KnownBy(s, TagUid(rec)) ==> s.id == Some(id))
    ensures !Binding(rec, Some(backend)).1 ==> Binding(rec, Some(backend)) == (None, false)
  {
    hide Claims, SpoolNumber, NormaliseUid, KnownBy;
    var uid := TagUid(rec);
    TagUidIsNormal(rec);
    forall s: Spool
      ensures Claims(s, uid) <==> KnownBy(s, uid)
    {
      ClaimsExactly(s, uid);
    }
    hide TagUid;
    if uid == "" {
      NothingKnownByNothing();
    }
    assert Claimed(backend, uid, id) <==> exists s :: s in backend && s.id == Some(id) && KnownBy(s, uid);
    if forall s :: s in backend && s.id.Some? && KnownBy(s, uid) ==> s.id == Some(id) {
      assert forall other :: Claimed(backend, uid, other) ==> other == id;
    }
    if OnlyClaim(backend, uid, id) {
      forall s | s in backend && s.id.Some? && KnownBy(s, uid)
        ensures s.id == Some(id)
      {
        assert Claimed(backend, uid, s.id.value);
      }
    }
  }

  lemma NothingKnownByNothing()
    ensures forall s :: !KnownBy(s, "")
  {
  }

  /** A number on the tag decides: the spool is confirmed exactly when the backend lists it, whatever the UID. */
  lemma NumberDecides(rec: Fields, backend: Option<set<Spool>>, n: int)
    requires SpoolNumber(rec, 0) == Some(n)
    ensures Binding(rec, backend).0 == Some(n)
    ensures Binding(rec, backend).1 <==> backend.Some? && exists s :: s in backend.value && s.id == Some(n)
  {
    hide SpoolNumber;
  }

  /** Any of the eight keys will do for the number. */
  lemma EveryKeyCarriesTheNumber(key: string, n: nat)
    requires key in ["sku", "SKU", "spool_id", "spoolId", "spool", "sm_id", "spoolman_id", "id"] && n > 0
    ensures SpoolNumber(map[key := Decimal(n)], 0) == Some(n)
  {
    hide SpoolFromText, Decimal;
    PrintedSpoolReadsBack(n);
    var k :| 0 <= k < 8 && SPOOL_KEYS[k] == key;
    SoleKey(map[key := Decimal(n)], k, 0);
  }

  lemma {:induction false} SoleKey(rec: Fields, k: nat, from: nat)
    requires from <= k < |SPOOL_KEYS| && SPOOL_KEYS[k] in rec && SpoolFromText(rec[SPOOL_KEYS[k]]).Some?
    requires forall i :: from <= i < k && SPOOL_KEYS[i] in rec ==>
               SpoolFromText(rec[SPOOL_KEYS[i]]).None? || SPOOL_KEYS[i] == SPOOL_KEYS[k]
    ensures SpoolNumber(rec, from) == SpoolFromText(rec[SPOOL_KEYS[k]])
    decreases k - from
  {
    hide SpoolFromText;
    if from < k && !(SPOOL_KEYS[from] in rec && SpoolFromText(rec[SPOOL_KEYS[from]]).Some?) {
      SoleKey(rec, k, from + 1);
    }
  }

  /** Without a number, two ids that claim the UID bind nothing. */
  lemma SharedUidBindsNone(rec: Fields, backend: set<Spool>, a: int, b: int)
    requires SpoolNumber(rec, 0).None? && a != b
    requires Claimed(backend, TagUid(rec), a) && Claimed(backend, TagUid(rec), b)
    ensures Binding(rec, Some(backend)) == (None, false)
  {
    hide Claimed, SpoolNumber, TagUid;
  }

  /** New spools may confirm a number or make a UID ambiguous; they never move a binding to another spool. */
  lemma GrowingBackend(rec: Fields, backend: set<Spool>, more: set<Spool>)
    requires backend <= more
    ensures var (id, backed) := Binding(rec, Some(backend));
            var now := Binding(rec, Some(more));
            id.Some? ==>
              if SpoolNumber(rec, 0).Some? then now.0 == id && (backed ==> now.1)
              else now == if exists other :: other != id.value && Claimed(more, TagUid(rec), other)
                          then (None, false) else (id, backed)
  {
    hide Claims, SpoolNumber, TagUid;
    var uid := TagUid(rec);
    var (id, backed) := Binding(rec, Some(backend));
    forall x | Claimed(backend, uid, x)
      ensures Claimed(more, uid, x)
    {
    }
    if id.Some? && SpoolNumber(rec, 0).None? {
      assert OnlyClaim(backend, uid, id.value);
      assert Claimed(more, uid, id.value);
      if forall other :: Claimed(more, uid, other) ==> other == id.value {
        assert OnlyClaim(more, uid, id.value);
      }
    }
  }

  /** How the UID is spelled on the tag makes no difference. */
  lemma UidSpelling(rec: Fields, uid: string, other: string, backend: Option<set<Spool>>)
    requires NormaliseUid(uid) == NormaliseUid(other)
    ensures Binding(rec["uid" := uid], backend) == Binding(rec["uid" := other], backend)
  {
    hide SpoolNumber, NormaliseUid, Claimed;
    NumberIgnoresUid(rec, uid, 0);
    NumberIgnoresUid(rec, other, 0);
    assert TagUid(rec["uid" := uid]) == TagUid(rec["uid" := other]);
  }

  lemma {:induction false} NumberIgnoresUid(rec: Fields, uid: string, k: nat)
    requires k <= |SPOOL_KEYS|
    ensures SpoolNumber(rec["uid" := uid], k) == SpoolNumber(rec, k)
    decreases |SPOOL_KEYS| - k
  {
    hide SpoolFromText;
    if k < |SPOOL_KEYS| {
      NumberIgnoresUid(rec, uid, k + 1);
      assert |SPOOL_KEYS[k]| == 3 ==> SPOOL_KEYS[k][0] != 'u';
    }
  }
}
