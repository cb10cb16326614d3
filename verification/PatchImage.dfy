/** Building the patched firmware image, emitting the edit script, and replaying the script elsewhere. */
module PatchImage {
  import opened Numbers
  import opened Wrappers
  import opened Octets
  import opened Edits
  import Thumb
  import Crc

  const BASE_ADDR: int := 0x0800_8000
  const BASE_SIZE: nat := 71592
  const MAGIC: Image := [0x61, 0xA5, 0x63, 0x5A, 0x65, 0xA5, 0x32, 0x5A]

  /** "V1.1.31" and "V1.1.63O", each with its terminating NUL: the new one is a byte longer. */
  const OLD_VERSION: Image := [0x56, 0x31, 0x2E, 0x31, 0x2E, 0x33, 0x31, 0x00]
  const NEW_VERSION: Image := [0x56, 0x31, 0x2E, 0x31, 0x2E, 0x36, 0x33, 0x4F, 0x00]

  // Hook offsets into the image.
  const UID: nat := 0x6836
  const RC522: nat := 0x67DA
  const RAWTAG: nat := 0x6842
  const RAWCACHE: nat := 0x7E3C
  const PAGEREAD: nat := 0x6228
  const EXTRACT: nat := 0x7E36
  const STATUS: nat := 0x3868

  // ---- Byte strings as the scripts slice them ----

  /** s[lo:hi], clamped to the string. */
  function Slice(s: Image, lo: nat, hi: nat): (r: Image)
    requires lo <= hi
    ensures hi <= |s| ==> r == s[lo..hi]
  {
    s[Min(lo, |s|)..Min(hi, |s|)]
  }

  /** s[lo:hi] = v, clamped to the string. */
  function Assign(s: Image, lo: nat, hi: nat, v: Image): Image
    requires lo <= hi
  {
    s[..Min(lo, |s|)] + v + s[Min(hi, |s|)..]
  }

  /** The first place needle occurs, as find returns it. */
  function Find(s: Image, needle: Image, from: nat): (i: Option<nat>)
    requires from <= |s|
    ensures i.Some? ==> from <= i.value && i.value + |needle| <= |s| && s[i.value..i.value + |needle|] == needle
    decreases |s| - from
  {
    if from + |needle| > |s| then None
    else if s[from..from + |needle|] == needle then Some(from)
    else if from == |s| then None
    else Find(s, needle, from + 1)
  }

  // ---- The builder ----

  /** What the toolchain produces: eight stretches of code, and where the status hook should land. */
  datatype Code = Code(decoder: Image, uid: Image, rc522: Image, rawtag: Image, cache: Image, extract: Image,
                       pageread: Image, rotisserie: Image, statusStub: int)
  {
    function UidAt(): nat { |decoder| }
    function Rc522At(): nat { UidAt() + |uid| }
    function RawtagAt(): nat { Rc522At() + |rc522| }
    function CacheAt(): nat { RawtagAt() + |rawtag| }
    function ExtractAt(): nat { CacheAt() + |cache| }
    function PagereadAt(): nat { ExtractAt() + |extract| }
    function All(): Image { decoder + uid + rc522 + rawtag + cache + extract + pageread + rotisserie }
  }

  /** The address a stretch of code gets when it starts at bytes into the code appended to n stock bytes. */
  function Placed(n: nat, at: nat): int { BASE_ADDR + n + at }

  function Branch(offset: nat, target: int): Image
    requires Thumb.InReach(BASE_ADDR + offset, target)
  {
    Thumb.BranchWide(BASE_ADDR + offset, target).value
  }

  predicate Reachable(code: Code, n: nat) {
    && Thumb.InReach(BASE_ADDR + UID, Placed(n, code.UidAt()))
    && Thumb.InReach(BASE_ADDR + RC522, Placed(n, code.Rc522At()))
    && Thumb.InReach(BASE_ADDR + RAWTAG, Placed(n, code.RawtagAt()))
    && Thumb.InReach(BASE_ADDR + RAWCACHE, Placed(n, code.CacheAt()))
    && Thumb.InReach(BASE_ADDR + EXTRACT, Placed(n, code.ExtractAt()))
    && Thumb.InReach(BASE_ADDR + STATUS, code.statusStub)
    && Thumb.InReach(BASE_ADDR + PAGEREAD, Placed(n, code.PagereadAt()))
  }

  /** The edits in the order the builder makes them. */
  function Installed(code: Code, n: nat): (edits: seq<Edit>)
    requires Reachable(code, n)
    ensures |edits| == 12
  {
    [ Edit(UID, Branch(UID, Placed(n, code.UidAt()))),
      Edit(RC522, Branch(RC522, Placed(n, code.Rc522At()))),
      Edit(RAWTAG, Branch(RAWTAG, Placed(n, code.RawtagAt()))),
      Edit(RAWCACHE, Branch(RAWCACHE, Placed(n, code.CacheAt()))),
      Edit(EXTRACT, Branch(EXTRACT, Placed(n, code.ExtractAt()))),
      Edit(STATUS, Branch(STATUS, code.statusStub)),
      Edit(0x6220, [0xAC]), Edit(0x6216, [0x38]), Edit(0x621C, [0x04]),
      Edit(0x76F8, [0x00, 0xBF]), Edit(0x7724, [0x00, 0xBF]),
      Edit(PAGEREAD, Branch(PAGEREAD, Placed(n, code.PagereadAt()))) ]
  }

  /** What the builder wants to find where it edits: four bytes of each hook but two of one, and each poke. */
  function Wanted(): (wants: seq<Edit>)
    ensures |wants| == 12
  {
    [ Edit(UID, [0x06, 0x20, 0x64, 0xE0]), Edit(RC522, [0x01, 0x20]), Edit(RAWTAG, [0x0D, 0xF1, 0x8C, 0x0E]),
      Edit(RAWCACHE, [0x05, 0xF1, 0x88, 0x0E]), Edit(EXTRACT, [0x06, 0x46, 0x8C, 0x28]),
      Edit(STATUS, [0x05, 0x28, 0x90, 0x60]), Edit(0x6220, [0x7C]), Edit(0x6216, [0x88]), Edit(0x621C, [0x0E]),
      Edit(0x76F8, [0xE4, 0xD5]), Edit(0x7724, [0xCE, 0xD0]), Edit(PAGEREAD, [0x40, 0xF2, 0x04, 0x71]) ]
  }

  predicate Matches(body: Image, want: Edit) {
    Slice(body, want.offset, want.offset + |want.bytes|) == want.bytes
  }

  ghost predicate AllMatch(body: Image, wants: seq<Edit>) { forall w :: w in wants ==> Matches(body, w) }

  lemma MatchFits(body: Image, want: Edit)
    requires Matches(body, want)
    ensures want.bytes != [] ==> want.Fits(|body|)
  {
  }

  datatype Refusal = UnknownBase | NoTrailer | SiteMismatch | BranchOutOfRange | VersionNotFound

  // ---- The sites do not overlap ----

  /** Offset and length of the k-th edit, in builder order. */
  const SPANS: seq<(nat, nat)> := [
    (UID, 4), (RC522, 4), (RAWTAG, 4), (RAWCACHE, 4), (EXTRACT, 4), (STATUS, 4),
    (0x6220, 1), (0x6216, 1), (0x621C, 1), (0x76F8, 2), (0x7724, 2), (PAGEREAD, 4)
  ]

  ghost predicate InSite(p: nat) { exists k :: 0 <= k < 12 && SPANS[k].0 <= p < SPANS[k].0 + SPANS[k].1 }

  lemma SpansApart(j: nat, k: nat)
    requires j < 12 && k < 12 && j != k
    ensures SPANS[j].0 + SPANS[j].1 <= SPANS[k].0 || SPANS[k].0 + SPANS[k].1 <= SPANS[j].0
  {
  }

  lemma InstalledSpan(code: Code, n: nat, k: nat)
    requires Reachable(code, n) && k < 12
    ensures Installed(code, n)[k].offset == SPANS[k].0 && |Installed(code, n)[k].bytes| == SPANS[k].1
  {
    hide Placed, Thumb.BranchWide, Thumb.InReach;
    var e := Installed(code, n)[k];
    if k < 3 {
    } else if k < 6 {
    } else if k < 9 {
    } else {
    }
  }

  lemma WantedSpan(k: nat)
    requires k < 12
    ensures Wanted()[k].offset == SPANS[k].0
    ensures 0 < |Wanted()[k].bytes| == (if k == 1 then 2 else SPANS[k].1) <= SPANS[k].1
  {
    if k < 6 {
    } else {
    }
  }

  lemma InstalledApart(code: Code, n: nat)
    requires Reachable(code, n)
    ensures AllApart(Installed(code, n))
    ensures forall j, k :: 0 <= j < k < 12 ==> Apart(Installed(code, n)[j], Wanted()[k])
  {
    hide Installed, Wanted, SPANS;
    forall j, k | 0 <= j < k < 12
      ensures Apart(Installed(code, n)[j], Installed(code, n)[k]) && Apart(Installed(code, n)[j], Wanted()[k])
    {
      InstalledSpan(code, n, j);
      InstalledSpan(code, n, k);
      WantedSpan(k);
      SpansApart(j, k);
    }
  }

  // ---- The build, step by step ----

  /** The image under construction after the first k edits. */
  ghost predicate Edited(body: Image, start: Image, code: Code, n: nat, k: nat)
    requires Reachable(code, n) && k <= 12
  {
    && AllFit(Installed(code, n)[..k], |start|)
    && body == Apply(start, Installed(code, n)[..k])
    && forall j :: 0 <= j < k ==> Matches(start, Wanted()[j])
  }

  /** Earlier edits leave a site apart from theirs as it was. */
  lemma StillToEdit(body: Image, start: Image, done: seq<Edit>, want: Edit)
    requires AllFit(done, |start|) && body == Apply(start, done)
    requires forall e :: e in done ==> Apart(e, want)
    ensures Matches(body, want) == Matches(start, want)
  {
    var lo, hi := want.offset, want.offset + |want.bytes|;
    forall p | lo <= p < hi && p < |start|
      ensures body[p] == start[p]
    {
      ApplyOutside(start, done, p);
    }
    assert Slice(body, lo, hi) == Slice(start, lo, hi);
  }

  /** Check the bytes at the k-th site and overwrite it. */
  method Install(body: Image, k: nat, bytes: Image, ghost start: Image, ghost code: Code, ghost n: nat)
    returns (r: Option<Image>)
    requires Reachable(code, n) && k < 12 && bytes == Installed(code, n)[k].bytes
    requires Edited(body, start, code, n, k)
    ensures r.Some? <==> Matches(start, Wanted()[k])
    ensures r.Some? ==> Edited(r.value, start, code, n, k + 1)
  {
    hide Installed, Wanted, Matches, Put, Assign, SPANS;
    InstalledSpan(code, n, k);
    WantedSpan(k);
    InstalledApart(code, n);
    var want := Wanted()[k];
    ghost var done := Installed(code, n)[..k];
    StillToEdit(body, start, done, want);
    if !Matches(body, want) {
      return None;
    }
    ghost var e := Installed(code, n)[k];
    assert e.Fits(|start|) by {
      if k == 1 {
        assert Matches(start, Wanted()[0]);
        FirstSpans();
        WantedSpan(0);
        MatchFits(start, Wanted()[0]);
      } else {
        MatchFits(start, want);
      }
    }
    ApplyAppend(start, done, e);
    assert done + [e] == Installed(code, n)[..k + 1];
    AssignIsPut(body, e);
    r := Some(Assign(body, want.offset, want.offset + |bytes|, bytes));
  }

  /** Hooks and pokes, each refused when its site does not hold what is expected. */
  method EditSites(start: Image, code: Code, n: nat) returns (r: Option<Image>)
    requires Reachable(code, n)
    ensures r.Some? <==> AllMatch(start, Wanted())
    ensures r.Some? ==> Edited(r.value, start, code, n, 12)
  {
    hide Installed, Wanted, Matches;
    assert Installed(code, n)[..0] == [];
    r := Some(start);
    var k := 0;
    while k < 12
      invariant k <= 12 && r.Some? && Edited(r.value, start, code, n, k)
    {
      r := Install(r.value, k, Installed(code, n)[k].bytes, start, code, n);
      if r.None? {
        return;
      }
      k := k + 1;
    }
  }

  // ---- The whole build, and the script it emits ----

  datatype Hook = Hook(offset: nat, stock: Image, patched: Image)

  datatype Spec<D> = Spec(baseDigest: D, baseSize: nat, appended: Image, hooks: seq<Hook>, pokes: seq<Edit>,
                          resultSize: nat, resultCrc: bv16)

  datatype Built<D> = Built(image: Image, spec: Spec<D>, versionAt: nat)

  /** The checksum both scripts compute over an image. */
  function Checksum(image: Image): bv16 {
    Crc.Crc(0, AsBytes(image))
  }

  function Start(base: Image, code: Code): Image
    requires |base| >= 8
  {
    base[..|base| - 8] + code.All()
  }

  predicate HasTrailer(base: Image) { |base| >= 8 && base[|base| - 8..] == MAGIC }

  /** The body with every site edited, before the version string is. */
  function EditedBody(base: Image, code: Code): (body: Image)
    requires |base| >= 8 && Reachable(code, |base| - 8)
    requires AllFit(Installed(code, |base| - 8), |Start(base, code)|)
    ensures |body| == |Start(base, code)|
  {
    Apply(Start(base, code), Installed(code, |base| - 8))
  }

  /** What the build demands of its inputs. */
  ghost predicate Buildable(base: Image, code: Code) {
    && HasTrailer(base)
    && Reachable(code, |base| - 8)
    && AllMatch(Start(base, code), Wanted())
    && AllFit(Installed(code, |base| - 8), |Start(base, code)|)
    && Find(EditedBody(base, code), OLD_VERSION, 0).Some?
  }

  function VersionAt(base: Image, code: Code): (i: nat)
    requires Buildable(base, code)
    ensures var body := EditedBody(base, code); i + 8 <= |body| && body[i..i + 8] == OLD_VERSION
  {
    Find(EditedBody(base, code), OLD_VERSION, 0).value
  }

  function FinalBody(base: Image, code: Code): Image
    requires Buildable(base, code)
  {
    var i := VersionAt(base, code);
    Assign(EditedBody(base, code), i, i + 9, NEW_VERSION)
  }

  /** The hooks as the script lists them: what a stock image holds there, and what the built one does. */
  function HookSites(): (sites: seq<Edit>)
    ensures |sites| == 7
  {
    [ Edit(RC522, [0x01, 0x20, 0x92, 0xE0]), Edit(UID, [0x06, 0x20, 0x64, 0xE0]),
      Edit(RAWTAG, [0x0D, 0xF1, 0x8C, 0x0E]), Edit(RAWCACHE, [0x05, 0xF1, 0x88, 0x0E]),
      Edit(EXTRACT, [0x06, 0x46, 0x8C, 0x28]), Edit(PAGEREAD, [0x40, 0xF2, 0x04, 0x71]),
      Edit(STATUS, [0x05, 0x28, 0x90, 0x60]) ]
  }

  function HooksOf(body: Image): (hooks: seq<Hook>)
    ensures |hooks| == 7
  {
    seq(|HookSites()|, k requires 0 <= k < |HookSites()| =>
      var site := HookSites()[k];
      Hook(site.offset, site.bytes, Slice(body, site.offset, site.offset + 4)))
  }

  function PokesOf(i: nat): (pokes: seq<Edit>)
    ensures |pokes| == 6
  {
    [ Edit(0x6216, [0x38]), Edit(0x621C, [0x04]), Edit(0x6220, [0xAC]),
      Edit(0x76F8, [0x00, 0xBF]), Edit(0x7724, [0x00, 0xBF]), Edit(i + 5, NEW_VERSION[5..]) ]
  }

  function Emit<D>(body: Image, i: nat, baseDigest: D): Spec<D> {
    Spec(baseDigest, BASE_SIZE, Slice(body, Min(BASE_SIZE - 8, |body|), |body|), HooksOf(body), PokesOf(i),
         |body| + 8, Checksum(body + MAGIC))
  }

  /** Build from a base image; force proceeds with an unrecognised one. */
  method Build<D(==)>(base: Image, code: Code, force: bool, digest: Image -> D, known: D)
    returns (r: Result<Built<D>, Refusal>)
    ensures r.Success? <==> ((digest(base) == known && |base| == BASE_SIZE) || force) && Buildable(base, code)
    ensures r.Success? ==>
              r.value == Built(FinalBody(base, code) + MAGIC, Emit(FinalBody(base, code), VersionAt(base, code), known),
                               VersionAt(base, code))
  {
    hide Installed, Wanted, Reachable, Matches, Emit, Slice, Find, Apply, Assign, Code.All;
    if (digest(base) != known || |base| != BASE_SIZE) && !force {
      return Failure(UnknownBase);
    }
    if !HasTrailer(base) {
      return Failure(NoTrailer);
    }
    var body := Start(base, code);
    if !Reachable(code, |base| - 8) {
      return Failure(BranchOutOfRange);
    }
    var edited := EditSites(body, code, |base| - 8);
    if edited.None? {
      return Failure(SiteMismatch);
    }
    assert Installed(code, |base| - 8)[..12] == Installed(code, |base| - 8);
    body := edited.value;
    var i := Find(body, OLD_VERSION, 0);
    if i.None? {
      return Failure(VersionNotFound);
    }
    body := Assign(body, i.value, i.value + |NEW_VERSION|, NEW_VERSION);
    r := Success(Built(body + MAGIC, Emit(body, i.value, known), i.value));
  }

  // ---- Replaying a script on a base image ----

  function ReplayHooks(body: Image, hooks: seq<Hook>): Option<Image>
    decreases |hooks|
  {
    if hooks == [] then Some(body)
    else
      var h := hooks[0];
      if !Matches(body, Edit(h.offset, h.stock)) then None
      else ReplayHooks(Assign(body, h.offset, h.offset + |h.stock|, h.patched), hooks[1..])
  }

  function ReplayPokes(body: Image, pokes: seq<Edit>): Image
    decreases |pokes|
  {
    if pokes == [] then body
    else ReplayPokes(Assign(body, pokes[0].offset, pokes[0].offset + |pokes[0].bytes|, pokes[0].bytes), pokes[1..])
  }

  function Replayed<D(==)>(base: Image, spec: Spec<D>, digest: Image -> D): Option<Image> {
    if digest(base) != spec.baseDigest || |base| != spec.baseSize || !HasTrailer(base) then None
    else
      match ReplayHooks(base[..|base| - 8] + spec.appended, spec.hooks)
      case None => None
      case Some(body) => Some(ReplayPokes(body, spec.pokes) + MAGIC)
  }

  /** Apply a script without a toolchain, and say whether the result has the checksum the script names. */
  method Replay<D(==)>(base: Image, spec: Spec<D>, digest: Image -> D) returns (r: Option<Image>, crcMatches: bool)
    ensures r == Replayed(base, spec, digest)
    ensures r.Some? ==> crcMatches == (Checksum(r.value) == spec.resultCrc)
  {
    if digest(base) != spec.baseDigest || |base| != spec.baseSize || !HasTrailer(base) {
      return None, false;
    }
    var body := base[..|base| - 8];
    body := body + spec.appended;
    var hooked := ReplayHookLoop(body, spec.hooks);
    if hooked.None? {
      return None, false;
    }
    body := ReplayPokeLoop(hooked.value, spec.pokes);
    var out := body + MAGIC;
    r, crcMatches := Some(out), Checksum(out) == spec.resultCrc;
  }

  method ReplayHookLoop(start: Image, hooks: seq<Hook>) returns (r: Option<Image>)
    ensures r == ReplayHooks(start, hooks)
  {
    hide Matches, Assign;
    var body := start;
    for k := 0 to |hooks|
      invariant ReplayHooks(start, hooks) == ReplayHooks(body, hooks[k..])
    {
      var h := hooks[k];
      assert hooks[k..][0] == h && hooks[k..][1..] == hooks[k + 1..];
      if !Matches(body, Edit(h.offset, h.stock)) {
        return None;
      }
      body := Assign(body, h.offset, h.offset + |h.stock|, h.patched);
    }
    r := Some(body);
  }

  method ReplayPokeLoop(start: Image, pokes: seq<Edit>) returns (body: Image)
    ensures body == ReplayPokes(start, pokes)
  {
    hide Assign;
    body := start;
    for k := 0 to |pokes|
      invariant ReplayPokes(start, pokes) == ReplayPokes(body, pokes[k..])
    {
      var p := pokes[k];
      assert pokes[k..][0] == p && pokes[k..][1..] == pokes[k + 1..];
      body := Assign(body, p.offset, p.offset + |p.bytes|, p.bytes);
    }
  }

  // ---- Replay as a list of edits ----

  function EditsOf(hooks: seq<Hook>): (edits: seq<Edit>)
    ensures |edits| == |hooks|
  {
    seq(|hooks|, k requires 0 <= k < |hooks| => Edit(hooks[k].offset, hooks[k].patched))
  }

  function StockOf(hooks: seq<Hook>): (wants: seq<Edit>)
    ensures |wants| == |hooks|
  {
    seq(|hooks|, k requires 0 <= k < |hooks| => Edit(hooks[k].offset, hooks[k].stock))
  }

  lemma {:induction false} PokesAreEdits(body: Image, pokes: seq<Edit>)
    requires AllFit(pokes, |body|)
    ensures ReplayPokes(body, pokes) == Apply(body, pokes)
    decreases |pokes|
  {
    if pokes != [] {
      assert pokes[0] in pokes;
      PokesAreEdits(Put(body, pokes[0]), pokes[1..]);
    }
  }

  lemma MatchSurvives(body: Image, e: Edit, w: Edit)
    requires e.Fits(|body|) && w.Fits(|body|) && Apart(e, w)
    ensures Matches(Put(body, e), w) == Matches(body, w)
  {
    assert Put(body, e)[w.offset..w.offset + |w.bytes|] == body[w.offset..w.offset + |w.bytes|];
  }

  ghost predicate WellFormed(hooks: seq<Hook>, n: nat) {
    && AllFit(EditsOf(hooks), n) && AllApart(EditsOf(hooks))
    && forall k :: 0 <= k < |hooks| ==> |hooks[k].stock| == |hooks[k].patched|
  }

  lemma WellFormedTail(hooks: seq<Hook>, n: nat)
    requires WellFormed(hooks, n) && hooks != []
    ensures WellFormed(hooks[1..], n)
    ensures EditsOf(hooks)[1..] == EditsOf(hooks[1..]) && StockOf(hooks)[1..] == StockOf(hooks[1..])
    ensures forall k :: 0 <= k < |hooks[1..]| ==>
              Apart(EditsOf(hooks)[0], StockOf(hooks[1..])[k]) && StockOf(hooks[1..])[k].Fits(n)
  {
    var rest := hooks[1..];
    forall k | 0 <= k < |rest|
      ensures EditsOf(rest)[k].Fits(n)
      ensures Apart(EditsOf(hooks)[0], StockOf(rest)[k]) && StockOf(rest)[k].Fits(n)
    {
      assert EditsOf(hooks)[k + 1] in EditsOf(hooks) && rest[k] == hooks[k + 1];
    }
    assert forall j, k :: 0 <= j < k < |rest| ==>
        EditsOf(rest)[j] == EditsOf(hooks)[j + 1] && EditsOf(rest)[k] == EditsOf(hooks)[k + 1];
  }

  lemma StockSurvives(body: Image, hooks: seq<Hook>)
    requires WellFormed(hooks, |body|) && hooks != []
    requires EditsOf(hooks)[0].Fits(|body|)
    ensures AllMatch(Put(body, EditsOf(hooks)[0]), StockOf(hooks[1..])) == AllMatch(body, StockOf(hooks[1..]))
  {
    hide Put, Matches;
    WellFormedTail(hooks, |body|);
    var e, wants := EditsOf(hooks)[0], StockOf(hooks[1..]);
    forall w | w in wants
      ensures Matches(Put(body, e), w) == Matches(body, w)
    {
      var k :| 0 <= k < |wants| && wants[k] == w;
      MatchSurvives(body, e, w);
    }
  }

  lemma FirstHook(body: Image, hooks: seq<Hook>, e: Edit, w: Edit)
    requires hooks != [] && |hooks[0].stock| == |hooks[0].patched| && e.Fits(|body|)
    requires e == Edit(hooks[0].offset, hooks[0].patched) && w == Edit(hooks[0].offset, hooks[0].stock)
    ensures ReplayHooks(body, hooks) == if Matches(body, w) then ReplayHooks(Put(body, e), hooks[1..]) else None
  {
    hide Put, Assign, Matches;
    AssignIsPut(body, e);
  }

  lemma AssignIsPut(body: Image, e: Edit)
    requires e.Fits(|body|)
    ensures Assign(body, e.offset, e.offset + |e.bytes|, e.bytes) == Put(body, e)
  {
  }

  /** Hooks that do not touch each other's sites are all checked against the body they started from. */
  lemma {:induction false} HooksAreEdits(body: Image, hooks: seq<Hook>)
    requires WellFormed(hooks, |body|)
    ensures ReplayHooks(body, hooks) ==
            if AllMatch(body, StockOf(hooks)) then Some(Apply(body, EditsOf(hooks))) else None
    decreases |hooks|
  {
    hide Matches, Put;
    if hooks != [] {
      assert EditsOf(hooks)[0] in EditsOf(hooks);
      FirstHook(body, hooks, EditsOf(hooks)[0], StockOf(hooks)[0]);
      hide WellFormed;
      WellFormedTail(hooks, |body|);
      HooksAreEdits(Put(body, EditsOf(hooks)[0]), hooks[1..]);
      StockSurvives(body, hooks);
      FirstAndRestMatch(body, StockOf(hooks));
      hide ReplayHooks, AllMatch, StockOf, EditsOf;
    }
  }

  lemma FirstAndRestMatch(body: Image, wants: seq<Edit>)
    requires wants != []
    ensures AllMatch(body, wants) <==> Matches(body, wants[0]) && AllMatch(body, wants[1..])
  {
    hide Matches;
    assert forall w :: w in wants <==> w == wants[0] || w in wants[1..];
  }

  // ---- Replay reproduces the build ----

  /** The two bytes of one hook site that the builder overwrites without looking and the script checks. */
  predicate UncheckedBytesAreStock(base: Image) {
    |base| >= RC522 + 4 && base[RC522 + 2..RC522 + 4] == [0x92, 0xE0]
  }

  /** Offset and length of each hook, in script order. */
  const HOOK_SPANS: seq<nat> := [RC522, UID, RAWTAG, RAWCACHE, EXTRACT, PAGEREAD, STATUS]

  lemma HookSpansApart(j: nat, k: nat)
    requires j < 7 && k < 7 && j != k
    ensures HOOK_SPANS[j] + 4 <= HOOK_SPANS[k] || HOOK_SPANS[k] + 4 <= HOOK_SPANS[j]
    ensures HOOK_SPANS[j] + 4 <= BASE_SIZE - 8
  {
  }

  lemma HookSpan(k: nat)
    requires k < 7
    ensures |HookSites()| == 7 && HookSites()[k].offset == HOOK_SPANS[k] && |HookSites()[k].bytes| == 4
    ensures HOOK_SPANS[k] + 4 <= BASE_SIZE - 8
  {
  }

  lemma EmittedHooksWellFormed(body: Image)
    requires |body| >= BASE_SIZE - 8
    ensures WellFormed(HooksOf(body), |body|)
  {
    hide HookSites, HOOK_SPANS, HooksOf;
    var hooks := HooksOf(body);
    SpanCount();
    forall k | 0 <= k < 7
      ensures |hooks[k].stock| == 4 && EditsOf(hooks)[k] == Edit(HOOK_SPANS[k], hooks[k].patched)
      ensures |hooks[k].patched| == 4 && HOOK_SPANS[k] + 4 <= |body|
    {
      HookSpan(k);
      HookOf(body, k);
    }
    hide EditsOf, Slice;
    forall j, k | 0 <= j < k < 7
      ensures Apart(EditsOf(hooks)[j], EditsOf(hooks)[k])
    {
      HookSpansApart(j, k);
    }
  }

  /** The final body byte by byte: only four bytes of the version string are new, its head being the same. */
  lemma FinalAt(base: Image, code: Code, p: nat)
    requires Buildable(base, code) && p < |FinalBody(base, code)|
    ensures var i, body := VersionAt(base, code), EditedBody(base, code);
            && (i + 5 <= p < i + 9 ==> FinalBody(base, code)[p] == NEW_VERSION[p - i])
            && (!(i + 5 <= p < i + 9) ==> p < |body| && FinalBody(base, code)[p] == body[p])
  {
    var i, body := VersionAt(base, code), EditedBody(base, code);
    hide EditedBody, VersionAt, Assign;
    VersionWritten(body, i, p);
    if i <= p < i + 5 {
      assert body[p] == body[i..i + 8][p - i] == OLD_VERSION[p - i];
    }
  }

  lemma VersionWritten(body: Image, i: nat, p: nat)
    requires i + 8 <= |body| && p < |Assign(body, i, i + 9, NEW_VERSION)|
    ensures Assign(body, i, i + 9, NEW_VERSION)[p] == if i <= p < i + 9 then NEW_VERSION[p - i] else body[p]
  {
  }

  lemma FinalLength(base: Image, code: Code)
    requires Buildable(base, code)
    ensures var n := |Start(base, code)|;
            |FinalBody(base, code)| == if VersionAt(base, code) + 8 == n then n + 1 else n
  {
  }

  /** Every edit of the build is there in the edited body. */
  lemma EditedInside(base: Image, code: Code, k: nat, p: nat)
    requires Buildable(base, code) && k < 12 && Installed(code, |base| - 8)[k].Covers(p)
    ensures p < |EditedBody(base, code)|
    ensures EditedBody(base, code)[p] ==
            Installed(code, |base| - 8)[k].bytes[p - Installed(code, |base| - 8)[k].offset]
  {
    hide Installed;
    var edits := Installed(code, |base| - 8);
    InstalledApart(code, |base| - 8);
    ApplyInside(Start(base, code), edits, k, p);
  }

  /** Outside the sites the edited body is the start. */
  lemma EditedOutside(base: Image, code: Code, p: nat)
    requires Buildable(base, code) && p < |EditedBody(base, code)| && EditedBody(base, code)[p] != Start(base, code)[p]
    ensures InSite(p)
  {
    hide Installed, SPANS;
    var edits := Installed(code, |base| - 8);
    if Covered(edits, p) {
      var e :| e in edits && e.Covers(p);
      var k :| 0 <= k < 12 && edits[k] == e;
      InstalledSpan(code, |base| - 8, k);
    } else {
      ApplyOutside(Start(base, code), edits, p);
    }
  }

  /** The version string that is replaced is the first one in the edited body, and the new one stands there whole. */
  lemma FirstVersionReplaced(base: Image, code: Code, at: nat)
    requires Buildable(base, code)
    ensures var body, i := EditedBody(base, code), VersionAt(base, code);
            && (at + 8 <= |body| && body[at..at + 8] == OLD_VERSION ==> i <= at)
            && i + 9 <= |FinalBody(base, code)| && FinalBody(base, code)[i..i + 9] == NEW_VERSION
  {
    hide EditedBody, Installed;
    if at + 8 <= |EditedBody(base, code)| && EditedBody(base, code)[at..at + 8] == OLD_VERSION {
      FindIsFirst(EditedBody(base, code), OLD_VERSION, 0, at);
    }
    var body, i := EditedBody(base, code), VersionAt(base, code);
    forall p | i <= p < i + 9
      ensures FinalBody(base, code)[p] == NEW_VERSION[p - i]
    {
    }
  }

  lemma {:induction false} FindIsFirst(s: Image, needle: Image, from: nat, at: nat)
    requires from <= at && at + |needle| <= |s| && s[at..at + |needle|] == needle
    ensures Find(s, needle, from).Some? && Find(s, needle, from).value <= at
    decreases at - from
  {
    if from < at && s[from..from + |needle|] != needle {
      FindIsFirst(s, needle, from + 1, at);
    }
  }

  // ---- The script as one list of edits ----

  function Script(body: Image, i: nat): (edits: seq<Edit>)
    ensures |edits| == 13
  {
    EditsOf(HooksOf(body)) + PokesOf(i)
  }

  /** Where in the script each edit of the build comes up again. */
  const AGAIN: seq<nat> := [1, 0, 2, 3, 4, 6, 9, 7, 8, 10, 11, 5]

  lemma ScriptHook(body: Image, i: nat, k: nat)
    requires |body| >= BASE_SIZE - 8 && k < 7
    ensures Script(body, i)[k] == Edit(HOOK_SPANS[k], Slice(body, HOOK_SPANS[k], HOOK_SPANS[k] + 4))
    ensures |Script(body, i)[k].bytes| == 4 && HOOK_SPANS[k] + 4 <= |body|
  {
    hide HookSites, HOOK_SPANS, PokesOf, Slice;
    HookSpan(k);
    HookOf(body, k);
    hide HooksOf;
    var hooks := HooksOf(body);
    assert Script(body, i)[k] == EditsOf(hooks)[k] == Edit(hooks[k].offset, hooks[k].patched);
  }

  lemma HookOf(body: Image, k: nat)
    requires k < 7
    ensures var site := HookSites()[k];
            HooksOf(body)[k] == Hook(site.offset, site.bytes, Slice(body, site.offset, site.offset + 4))
  {
    hide HookSites, Slice;
  }

  lemma ScriptPoke(body: Image, i: nat, k: nat)
    requires k < 6
    ensures Script(body, i)[k + 7] == PokesOf(i)[k]
  {
    hide PokesOf, HookSites, EditsOf, HooksOf;
  }

  lemma SpanAgain(k: nat)
    requires k < 12
    ensures AGAIN[k] < 7 ==> SPANS[k] == (HOOK_SPANS[AGAIN[k]], 4)
    ensures AGAIN[k] < 12
    ensures AGAIN[k] >= 7 ==>
              forall i: nat :: PokesOf(i)[AGAIN[k] - 7].offset == SPANS[k].0
                                 && |PokesOf(i)[AGAIN[k] - 7].bytes| == SPANS[k].1
  {
    if k < 4 {
    } else if k < 8 {
    } else {
    }
  }

  /** A poke of the script is one the build made, with the same bytes. */
  lemma PokeMade(code: Code, n: nat, i: nat, k: nat)
    requires Reachable(code, n) && k < 5
    ensures exists j :: 0 <= j < 12 && Installed(code, n)[j] == PokesOf(i)[k]
  {
    hide Branch, Placed;
    var made := Installed(code, n);
    assert made[7] == PokesOf(i)[0] && made[8] == PokesOf(i)[1] && made[6] == PokesOf(i)[2];
    assert made[9] == PokesOf(i)[3] && made[10] == PokesOf(i)[4];
  }

  /** The body a replay starts from: stock bytes, then the appended part of the final body. */
  function ReplayStart(base: Image, body: Image): (start: Image)
    requires |base| == BASE_SIZE && |body| >= BASE_SIZE - 8
    ensures |start| == |body|
  {
    base[..BASE_SIZE - 8] + body[BASE_SIZE - 8..]
  }

  lemma ScriptFits(body: Image, i: nat)
    requires |body| >= BASE_SIZE - 8 && i + 9 <= |body|
    ensures AllFit(Script(body, i), |body|)
  {
    hide HOOK_SPANS, HookSites;
    HookSpan(0);
    forall k | 0 <= k < 13
      ensures Script(body, i)[k].Fits(|body|)
    {
      if k < 7 {
        ScriptHook(body, i, k);
        HookSpan(k);
      } else {
        ScriptPoke(body, i, k - 7);
      }
    }
  }

  /** Where the replay starts out wrong, the script writes. */
  lemma ScriptCovers(base: Image, code: Code, p: nat)
    requires Buildable(base, code) && |base| == BASE_SIZE
    requires var body := FinalBody(base, code);
             p < |body| && |body| >= BASE_SIZE - 8 && ReplayStart(base, body)[p] != body[p]
    ensures Covered(Script(FinalBody(base, code), VersionAt(base, code)), p)
  {
    hide FinalBody, VersionAt, EditedBody, Script, PokesOf, Buildable;
    var body, i := FinalBody(base, code), VersionAt(base, code);
    var edits := Script(body, i);
    FinalAt(base, code, p);
    if i + 5 <= p < i + 9 {
      ScriptPoke(body, i, 5);
      LastPoke(i);
      assert edits[12] in edits && edits[12].Covers(p);
    } else {
      StockInStart(base, body, p);
      EditedOutside(base, code, p);
      SiteInScript(body, i, p);
    }
  }

  lemma StockInStart(base: Image, body: Image, p: nat)
    requires |base| == BASE_SIZE && |body| >= BASE_SIZE - 8 && p < |body| && ReplayStart(base, body)[p] != body[p]
    ensures p < BASE_SIZE - 8 && ReplayStart(base, body)[p] == base[p]
  {
  }

  lemma SiteInScript(body: Image, i: nat, p: nat)
    requires |body| >= BASE_SIZE - 8 && InSite(p)
    ensures Covered(Script(body, i), p)
  {
    hide Script, SPANS, AGAIN, HOOK_SPANS, PokesOf;
    var edits := Script(body, i);
    SpanCount();
    var k: nat :| k < 12 && SPANS[k].0 <= p < SPANS[k].0 + SPANS[k].1;
    SpanAgain(k);
    var m := AGAIN[k];
    if m < 7 {
      ScriptHook(body, i, m);
    } else {
      ScriptPoke(body, i, m - 7);
    }
    assert edits[m] in edits && edits[m].Covers(p);
  }

  lemma SpanCount()
    ensures |SPANS| == 12 && |AGAIN| == 12 && |HOOK_SPANS| == 7
  {
  }

  lemma LastPoke(i: nat)
    ensures |PokesOf(i)| == 6 && PokesOf(i)[5] == Edit(i + 5, NEW_VERSION[5..]) && |NEW_VERSION[5..]| == 4
  {
  }

  /** What the script writes is right, or will be overwritten by the version poke. */
  lemma ScriptWritesRight(base: Image, code: Code, k: nat, p: nat)
    requires Buildable(base, code) && |base| == BASE_SIZE && k < 13
    requires |FinalBody(base, code)| >= BASE_SIZE - 8 && p < |FinalBody(base, code)|
    requires Script(FinalBody(base, code), VersionAt(base, code))[k].Covers(p)
    ensures var edits := Script(FinalBody(base, code), VersionAt(base, code));
            edits[k].bytes[p - edits[k].offset] == FinalBody(base, code)[p] || Covered(edits[k + 1..], p)
  {
    hide FinalBody, VersionAt, Script, PokesOf, Buildable;
    var body, i := FinalBody(base, code), VersionAt(base, code);
    var edits := Script(body, i);
    if k < 7 {
      HookWritesRight(body, i, k, p);
    } else if k == 12 || i + 5 <= p < i + 9 {
      VersionWritesRight(base, code, k, p);
    } else {
      PokeWritesRight(base, code, k - 7, p);
    }
  }

  lemma HookWritesRight(body: Image, i: nat, k: nat, p: nat)
    requires |body| >= BASE_SIZE - 8 && k < 7 && p < |body| && Script(body, i)[k].Covers(p)
    ensures Script(body, i)[k].bytes[p - Script(body, i)[k].offset] == body[p]
  {
    hide Script;
    ScriptHook(body, i, k);
    hide HOOK_SPANS;
  }

  lemma VersionWritesRight(base: Image, code: Code, k: nat, p: nat)
    requires Buildable(base, code) && 7 <= k < 13 && p < |FinalBody(base, code)|
    requires Script(FinalBody(base, code), VersionAt(base, code))[k].Covers(p)
    requires k == 12 || VersionAt(base, code) + 5 <= p < VersionAt(base, code) + 9
    ensures var edits := Script(FinalBody(base, code), VersionAt(base, code));
            edits[k].bytes[p - edits[k].offset] == FinalBody(base, code)[p] || Covered(edits[k + 1..], p)
  {
    hide FinalBody, VersionAt, EditedBody, Script, PokesOf, Buildable;
    var body, i := FinalBody(base, code), VersionAt(base, code);
    var edits := Script(body, i);
    LastPoke(i);
    ScriptPoke(body, i, 5);
    FinalAt(base, code, p);
    if k < 12 {
      assert edits[k + 1..][12 - (k + 1)] == edits[12] && edits[12].Covers(p);
    }
  }

  lemma PokeWritesRight(base: Image, code: Code, k: nat, p: nat)
    requires Buildable(base, code) && k < 5 && p < |FinalBody(base, code)|
    requires !(VersionAt(base, code) + 5 <= p < VersionAt(base, code) + 9)
    requires Script(FinalBody(base, code), VersionAt(base, code))[k + 7].Covers(p)
    ensures var e := Script(FinalBody(base, code), VersionAt(base, code))[k + 7];
            e.bytes[p - e.offset] == FinalBody(base, code)[p]
  {
    hide FinalBody, VersionAt, EditedBody, Script, Installed, PokesOf, Buildable;
    var i := VersionAt(base, code);
    ScriptPoke(FinalBody(base, code), i, k);
    BuildableReaches(base, code);
    PokeMade(code, |base| - 8, i, k);
    var j :| 0 <= j < 12 && Installed(code, |base| - 8)[j] == PokesOf(i)[k];
    FinalAt(base, code, p);
    EditedInside(base, code, j, p);
  }

  lemma BuildableReaches(base: Image, code: Code)
    requires Buildable(base, code)
    ensures |base| >= 8 && Reachable(code, |base| - 8)
  {
  }

  lemma ScriptReproduces(base: Image, code: Code)
    requires Buildable(base, code) && |base| == BASE_SIZE
    ensures var body, i := FinalBody(base, code), VersionAt(base, code);
            && |body| >= BASE_SIZE - 8
            && AllFit(Script(body, i), |body|)
            && Apply(ReplayStart(base, body), Script(body, i)) == body
  {
    hide FinalBody, VersionAt, EditedBody, Installed, Script, Put;
    var body, i := FinalBody(base, code), VersionAt(base, code);
    FinalLength(base, code);
    VersionFits(base, code);
    ScriptFits(body, i);
    forall p | 0 <= p < |body| && ReplayStart(base, body)[p] != body[p]
      ensures Covered(Script(body, i), p)
    {
      ScriptCovers(base, code, p);
    }
    HookSpan(0);
    forall k, p | 0 <= k < 13 && 0 <= p < |body| && Script(body, i)[k].Covers(p)
      ensures Script(body, i)[k].bytes[p - Script(body, i)[k].offset] == body[p] || Covered(Script(body, i)[k + 1..], p)
    {
      ScriptWritesRight(base, code, k, p);
    }
    ApplyReaches(ReplayStart(base, body), Script(body, i), body);
  }

  lemma VersionFits(base: Image, code: Code)
    requires Buildable(base, code)
    ensures VersionAt(base, code) + 9 <= |FinalBody(base, code)|
  {
  }

  /** The script's hook checks pass exactly when the two unchecked bytes are stock. */
  lemma HookChecks(base: Image, code: Code)
    requires Buildable(base, code) && |base| == BASE_SIZE && |FinalBody(base, code)| >= BASE_SIZE - 8
    ensures var body := FinalBody(base, code);
            AllMatch(ReplayStart(base, body), StockOf(HooksOf(body))) <==> UncheckedBytesAreStock(base)
  {
    hide FinalBody, Buildable, StockOf, HooksOf, AllMatch, UncheckedBytesAreStock;
    StockOfHooks(FinalBody(base, code));
    StockAtSites(base, code, ReplayStart(base, FinalBody(base, code)));
  }

  lemma StockOfHooks(body: Image)
    ensures StockOf(HooksOf(body)) == HookSites()
  {
    hide HookSites, Slice, HooksOf;
    forall k | 0 <= k < 7
      ensures StockOf(HooksOf(body))[k] == HookSites()[k]
    {
      HookOf(body, k);
    }
  }

  lemma StockAtSites(base: Image, code: Code, start: Image)
    requires Buildable(base, code) && |base| == BASE_SIZE
    requires |start| >= BASE_SIZE - 8 && start[..BASE_SIZE - 8] == base[..BASE_SIZE - 8]
    ensures AllMatch(start, HookSites()) <==> UncheckedBytesAreStock(base)
  {
    hide FinalBody, EditedBody, Installed, Find, Matches, UncheckedBytesAreStock, HookSites, Wanted, Start, Reachable;
    SameSites();
    forall k | 0 <= k < 12
      ensures Matches(start, Wanted()[k])
    {
      StartMatches(base, code, start, Wanted()[k]);
    }
    HalfCheckedSite(base, start);
    SevenMatch(start);
  }

  lemma SevenMatch(start: Image)
    requires forall k :: 0 <= k < 12 ==> Matches(start, Wanted()[k])
    ensures AllMatch(start, HookSites()) <==> Matches(start, HookSites()[0])
  {
    hide Matches, Wanted, HookSites;
    SameSites();
    var sites := HookSites();
    assert sites[0] in sites;
    forall w | w in sites && w != sites[0]
      ensures Matches(start, w)
    {
      var k :| 0 <= k < 7 && sites[k] == w;
    }
  }

  lemma StartMatches(base: Image, code: Code, start: Image, want: Edit)
    requires Buildable(base, code) && |base| == BASE_SIZE && want in Wanted() && want.Fits(BASE_SIZE - 8)
    requires |start| >= BASE_SIZE - 8 && start[..BASE_SIZE - 8] == base[..BASE_SIZE - 8]
    ensures Matches(start, want)
  {
    hide FinalBody, EditedBody, Installed, Find, Matches, Wanted, Reachable;
    assert Start(base, code)[..BASE_SIZE - 8] == base[..BASE_SIZE - 8];
    SamePrefixMatches(Start(base, code), start, want);
  }

  lemma SameSites()
    ensures var sites, wants := HookSites(), Wanted();
            && |sites| == 7 && |wants| == 12
            && sites[1] == wants[0] && sites[2] == wants[2] && sites[3] == wants[3]
            && sites[4] == wants[4] && sites[5] == wants[11] && sites[6] == wants[5]
            && forall k :: 0 <= k < 12 ==> wants[k].Fits(BASE_SIZE - 8)
  {
  }

  lemma SamePrefixMatches(a: Image, b: Image, w: Edit)
    requires |a| >= BASE_SIZE - 8 && |b| >= BASE_SIZE - 8 && a[..BASE_SIZE - 8] == b[..BASE_SIZE - 8]
    requires w.Fits(BASE_SIZE - 8)
    ensures Matches(a, w) == Matches(b, w)
  {
    SamePrefixSlice(a, b, BASE_SIZE - 8, w.offset, w.offset + |w.bytes|);
  }

  lemma SamePrefixSlice(a: Image, b: Image, n: nat, lo: nat, hi: nat)
    requires n <= |a| && n <= |b| && a[..n] == b[..n] && lo <= hi <= n
    ensures a[lo..hi] == b[lo..hi]
  {
    assert a[lo..hi] == a[..n][lo..hi] && b[lo..hi] == b[..n][lo..hi];
  }

  lemma HalfCheckedSite(base: Image, start: Image)
    requires |base| == BASE_SIZE
    requires |start| >= BASE_SIZE - 8 && start[..BASE_SIZE - 8] == base[..BASE_SIZE - 8]
    requires Matches(start, Wanted()[1])
    ensures Matches(start, HookSites()[0]) <==> UncheckedBytesAreStock(base)
  {
    var o := RC522;
    assert start[o..o + 2] == [0x01, 0x20];
    assert start[o..o + 4] == start[o..o + 2] + start[o + 2..o + 4];
    SamePrefixSlice(start, base, BASE_SIZE - 8, o + 2, o + 4);
    assert [0x01, 0x20, 0x92, 0xE0] == [0x01, 0x20] + [0x92, 0xE0];
    if start[o..o + 4] == [0x01, 0x20, 0x92, 0xE0] {
      assert start[o..o + 4][2..] == [0x92, 0xE0];
    }
  }

  /**
   * Replaying the emitted script yields the built image, byte for byte, exactly when the base is the
   * recognised one and holds stock bytes where the builder did not look; otherwise it refuses.
   */
  lemma ReplayReproducesBuild<D>(base: Image, code: Code, digest: Image -> D, known: D)
    requires Buildable(base, code)
    ensures var body := FinalBody(base, code);
            Replayed(base, Emit(body, VersionAt(base, code), known), digest) ==
            if digest(base) == known && |base| == BASE_SIZE && UncheckedBytesAreStock(base)
            then Some(body + MAGIC)
            else None
  {
    hide FinalBody, VersionAt, EditedBody, Installed, Script, HooksOf, PokesOf, Put, Apply, Checksum;
    var body, i := FinalBody(base, code), VersionAt(base, code);
    var spec := Emit(body, i, known);
    if digest(base) == known && |base| == BASE_SIZE {
      ScriptReproduces(base, code);
      var start := ReplayStart(base, body);
      assert base[..|base| - 8] + spec.appended == start;
      EmittedHooksWellFormed(body);
      HooksAreEdits(start, spec.hooks);
      HookChecks(base, code);
      if UncheckedBytesAreStock(base) {
        ScriptSplits(start, body, i);
      }
    }
  }

  lemma ScriptSplits(start: Image, body: Image, i: nat)
    requires |body| == |start| && AllFit(Script(body, i), |start|)
    ensures AllFit(EditsOf(HooksOf(body)), |start|)
    ensures ReplayPokes(Apply(start, EditsOf(HooksOf(body))), PokesOf(i)) == Apply(start, Script(body, i))
  {
    hide HooksOf, PokesOf, EditsOf;
    var a, b := EditsOf(HooksOf(body)), PokesOf(i);
    assert forall e :: e in a || e in b ==> e in a + b;
    ApplyConcat(start, a, b);
    PokesAreEdits(Apply(start, a), b);
  }

  // ---- The shape of a built image ----

  /** Only the edited sites and four bytes of the version string differ from stock; the trailer stays last. */
  lemma BuiltImageShape(base: Image, code: Code)
    requires Buildable(base, code)
    ensures var n, i, image := |base| - 8, VersionAt(base, code), FinalBody(base, code) + MAGIC;
            && |image| == |base| + |code.All()| + (if i + 8 == n + |code.All()| then 1 else 0)
            && image[|image| - 8..] == MAGIC
            && forall p :: 0 <= p < n && image[p] != base[p] ==>
                 i + 5 <= p < i + 9 || InSite(p)
  {
    hide FinalBody, VersionAt, EditedBody, Installed, SPANS;
    var n, i, body := |base| - 8, VersionAt(base, code), FinalBody(base, code);
    FinalLength(base, code);
    assert |Start(base, code)| == n + |code.All()|;
    assert (body + MAGIC)[|body|..] == MAGIC;
    forall p | 0 <= p < n && (body + MAGIC)[p] != base[p] && !(i + 5 <= p < i + 9)
      ensures InSite(p)
    {
      FinalAt(base, code, p);
      EditedOutside(base, code, p);
    }
  }

  /** The version string written at i stays clear of the bytes from lo up to hi. */
  predicate VersionClear(i: nat, lo: nat, hi: nat) { i + 9 <= lo || hi <= i + 5 }

  lemma EditSurvives(base: Image, code: Code, k: nat)
    requires Buildable(base, code) && k < 12
    requires VersionClear(VersionAt(base, code), SPANS[k].0, SPANS[k].0 + SPANS[k].1)
    ensures var e := Installed(code, |base| - 8)[k];
            e.Fits(|FinalBody(base, code)|) && FinalBody(base, code)[e.offset..e.offset + |e.bytes|] == e.bytes
  {
    hide FinalBody, VersionAt, EditedBody, Installed, SPANS;
    var e, body := Installed(code, |base| - 8)[k], FinalBody(base, code);
    InstalledSpan(code, |base| - 8, k);
    FinalLength(base, code);
    assert e in Installed(code, |base| - 8);
    forall p | e.offset <= p < e.offset + |e.bytes|
      ensures body[p] == e.bytes[p - e.offset]
    {
      EditedInside(base, code, k, p);
      FinalAt(base, code, p);
    }
  }

  lemma BranchLands(offset: nat, target: int)
    requires offset % 2 == 0 && Thumb.InReach(BASE_ADDR + offset, target)
    ensures |Branch(offset, target)| == 4
    ensures Thumb.Decode(BASE_ADDR + offset, Branch(offset, target)) == Some(target - target % 2)
  {
    hide Thumb.Decode;
    Thumb.DecodeInvertsEncode(BASE_ADDR + offset, target);
    assert (target - (BASE_ADDR + offset)) % 2 == target % 2;
  }

  /** Each hook of a built image branches to the code assembled for it, if that code has an even address. */
  lemma HookReachesItsCode(base: Image, code: Code, k: nat, o: nat, target: int)
    requires Buildable(base, code) && (k < 6 || k == 11) && o == SPANS[k].0
    requires target == TargetOf(code, |base| - 8, k)
    requires VersionClear(VersionAt(base, code), o, o + 4)
    ensures o + 4 <= |FinalBody(base, code)|
    ensures Thumb.Decode(BASE_ADDR + o, FinalBody(base, code)[o..o + 4]) == Some(target - target % 2)
  {
    hide FinalBody, VersionAt, EditedBody, Installed, TargetOf, Branch, Thumb.Decode, Placed, Buildable, Reachable;
    BuildableReaches(base, code);
    HookIsBranch(code, |base| - 8, k);
    EditSurvives(base, code, k);
    BranchLands(o, target);
  }

  function TargetOf(code: Code, n: nat, k: nat): int
    requires k < 6 || k == 11
  {
    if k == 0 then Placed(n, code.UidAt()) else if k == 1 then Placed(n, code.Rc522At())
    else if k == 2 then Placed(n, code.RawtagAt()) else if k == 3 then Placed(n, code.CacheAt())
    else if k == 4 then Placed(n, code.ExtractAt()) else if k == 5 then code.statusStub
    else Placed(n, code.PagereadAt())
  }

  lemma HookIsBranch(code: Code, n: nat, k: nat)
    requires Reachable(code, n) && (k < 6 || k == 11)
    ensures SPANS[k].0 % 2 == 0 && SPANS[k].1 == 4
    ensures Thumb.InReach(BASE_ADDR + SPANS[k].0, TargetOf(code, n, k))
    ensures Installed(code, n)[k] == Edit(SPANS[k].0, Branch(SPANS[k].0, TargetOf(code, n, k)))
  {
    hide Branch, Placed, Thumb.InReach;
  }

  // ---- The stubs are where the hooks go ----

  /** The stretches of code in the order they are appended. */
  function Parts(code: Code): (parts: seq<Image>)
    ensures |parts| == 8
  {
    [code.decoder, code.uid, code.rc522, code.rawtag, code.cache, code.extract, code.pageread, code.rotisserie]
  }

  /** How many bytes of code come before the j-th stretch. */
  function Before(parts: seq<Image>, j: nat): nat
    requires j <= |parts|
  {
    if j == 0 then 0 else Before(parts, j - 1) + |parts[j - 1]|
  }

  lemma PartOffsets(code: Code)
    ensures var parts := Parts(code);
            && Before(parts, 0) == 0 && Before(parts, 1) == code.UidAt() && Before(parts, 2) == code.Rc522At()
            && Before(parts, 3) == code.RawtagAt() && Before(parts, 4) == code.CacheAt()
            && Before(parts, 5) == code.ExtractAt() && Before(parts, 6) == code.PagereadAt()
            && Before(parts, 7) == code.PagereadAt() + |code.pageread| && Before(parts, 8) == |code.All()|
  {
  }

  function Joined(parts: seq<Image>, j: nat): (all: Image)
    requires j <= |parts|
    ensures |all| == Before(parts, j)
  {
    if j == 0 then [] else Joined(parts, j - 1) + parts[j - 1]
  }

  lemma AllIsJoined(code: Code)
    ensures code.All() == Joined(Parts(code), 8)
  {
    var p := Parts(code);
    hide Before;
    assert Joined(p, 0) == [];
    assert Joined(p, 1) == code.decoder;
    assert Joined(p, 2) == code.decoder + code.uid;
    assert Joined(p, 3) == code.decoder + code.uid + code.rc522;
    assert Joined(p, 4) == code.decoder + code.uid + code.rc522 + code.rawtag;
    assert Joined(p, 5) == code.decoder + code.uid + code.rc522 + code.rawtag + code.cache;
    assert Joined(p, 6) == code.decoder + code.uid + code.rc522 + code.rawtag + code.cache + code.extract;
  }

  lemma {:induction false} PartInJoined(parts: seq<Image>, j: nat, m: nat)
    requires j < m <= |parts|
    ensures Before(parts, j) + |parts[j]| <= Before(parts, m)
    ensures Joined(parts, m)[Before(parts, j)..Before(parts, j) + |parts[j]|] == parts[j]
    decreases m
  {
    if j < m - 1 {
      PartInJoined(parts, j, m - 1);
    }
  }

  /** A byte of the appended code is there in the final body, unless the version string is. */
  lemma CodeAt(base: Image, code: Code, p: nat)
    requires Buildable(base, code) && |base| == BASE_SIZE && p < |code.All()|
    requires !(VersionAt(base, code) + 5 <= |base| - 8 + p < VersionAt(base, code) + 9)
    ensures var q := |base| - 8 + p; q < |FinalBody(base, code)| && FinalBody(base, code)[q] == code.All()[p]
  {
    hide FinalBody, VersionAt, EditedBody, Installed, SPANS;
    var q := |base| - 8 + p;
    FinalLength(base, code);
    FinalAt(base, code, q);
    if EditedBody(base, code)[q] != Start(base, code)[q] {
      EditedOutside(base, code, q);
      SitesAreStock(q);
    }
  }

  lemma SitesAreStock(q: nat)
    requires InSite(q)
    ensures q < BASE_SIZE - 8
  {
    var k :| 0 <= k < 12 && SPANS[k].0 <= q < SPANS[k].0 + SPANS[k].1;
    SpanBounds(k);
  }

  /** Every stretch of code lies, whole, where those before it end. */
  lemma PartSurvives(base: Image, code: Code, j: nat)
    requires Buildable(base, code) && |base| == BASE_SIZE && j < 8
    requires var lo := |base| - 8 + Before(Parts(code), j);
             VersionClear(VersionAt(base, code), lo, lo + |Parts(code)[j]|)
    ensures var lo, c := |base| - 8 + Before(Parts(code), j), Parts(code)[j];
            lo + |c| <= |FinalBody(base, code)| && FinalBody(base, code)[lo..lo + |c|] == c
  {
    hide FinalBody, VersionAt, Buildable, Before, Joined, Parts;
    var at, c := Before(Parts(code), j), Parts(code)[j];
    var lo := |base| - 8 + at;
    AllIsJoined(code);
    PartInJoined(Parts(code), j, 8);
    BuildableLength(base, code);
    forall q | lo <= q < lo + |c|
      ensures FinalBody(base, code)[q] == c[q - lo]
    {
      CodeAt(base, code, q - (|base| - 8));
      assert code.All()[at..at + |c|][q - lo] == code.All()[q - (|base| - 8)];
    }
  }

  lemma BuildableLength(base: Image, code: Code)
    requires Buildable(base, code)
    ensures |base| - 8 + |code.All()| <= |FinalBody(base, code)|
  {
    hide FinalBody, VersionAt, EditedBody;
    FinalLength(base, code);
  }

  /** The stub a hook is meant for. */
  function StubOf(code: Code, k: nat): Image
    requires k < 5 || k == 11
  {
    if k == 0 then code.uid else if k == 1 then code.rc522 else if k == 2 then code.rawtag
    else if k == 3 then code.cache else if k == 4 then code.extract else code.pageread
  }

  lemma StubIsPart(code: Code, n: nat, k: nat)
    requires k < 5 || k == 11
    ensures var j := if k == 11 then 6 else k + 1;
            StubOf(code, k) == Parts(code)[j] && TargetOf(code, n, k) == BASE_ADDR + n + Before(Parts(code), j)
  {
    PartOffsets(code);
    hide Before;
  }

  /** The processor, at each hook that has a stub of its own, enters the first byte of that very stub. */
  lemma HookEntersItsStub(base: Image, code: Code, k: nat, o: nat)
    requires Buildable(base, code) && |base| == BASE_SIZE && (k < 5 || k == 11) && o == SPANS[k].0
    requires TargetOf(code, |base| - 8, k) % 2 == 0
    requires var lo := TargetOf(code, |base| - 8, k) - BASE_ADDR;
             lo >= 0 && VersionClear(VersionAt(base, code), o, o + 4)
             && VersionClear(VersionAt(base, code), lo, lo + |StubOf(code, k)|)
    ensures var body, stub := FinalBody(base, code), StubOf(code, k);
            && o + 4 <= |body| && Thumb.Decode(BASE_ADDR + o, body[o..o + 4]).Some?
            && var lo := Thumb.Decode(BASE_ADDR + o, body[o..o + 4]).value - BASE_ADDR;
               0 <= lo && lo + |stub| <= |body| && body[lo..lo + |stub|] == stub
  {
    hide FinalBody, VersionAt, TargetOf, Thumb.Decode, Buildable, Before, Parts, StubOf, SPANS;
    StubIsPart(code, |base| - 8, k);
    HookReachesItsCode(base, code, k, o, TargetOf(code, |base| - 8, k));
    PartSurvives(base, code, if k == 11 then 6 else k + 1);
  }

  /** What a replay gives is of the size and has the checksum that the script announces. */
  lemma ScriptAnnouncesResult<D>(base: Image, code: Code, digest: Image -> D, known: D)
    requires Buildable(base, code)
    requires Replayed(base, Emit(FinalBody(base, code), VersionAt(base, code), known), digest).Some?
    ensures var spec := Emit(FinalBody(base, code), VersionAt(base, code), known);
            var image := Replayed(base, spec, digest).value;
            && spec.baseDigest == digest(base) && spec.baseSize == |base|
            && spec.resultSize == |image| && spec.resultCrc == Checksum(image)
  {
    hide FinalBody, VersionAt, Buildable, Checksum, HooksOf, PokesOf;
    ReplayReproducesBuild(base, code, digest, known);
  }

  // ---- The two bytes the builder never looks at ----

  /** The base image with the two unchecked bytes replaced. */
  function WithUnchecked(base: Image, x: Octet, y: Octet): (r: Image)
    requires |base| >= RC522 + 12
    ensures |r| == |base|
  {
    base[RC522 + 2 := x][RC522 + 3 := y]
  }

  /** The builder overwrites them unseen, so any values build the same body. */
  lemma UncheckedBytesDoNotMatter(base: Image, code: Code, x: Octet, y: Octet)
    requires Buildable(base, code) && |base| == BASE_SIZE
    ensures Buildable(WithUnchecked(base, x, y), code)
    ensures FinalBody(WithUnchecked(base, x, y), code) == FinalBody(base, code)
    ensures UncheckedBytesAreStock(WithUnchecked(base, x, y)) <==> x == 0x92 && y == 0xE0
  {
    var other, n := WithUnchecked(base, x, y), |base| - 8;
    assert other[|other| - 8..] == base[|base| - 8..];
    hide Installed, Wanted, Find, Apply, WithUnchecked;
    UncheckedStart(base, code, x, y);
    UncheckedEdits(base, code, x, y);
    UncheckedPair(base, x, y);
  }

  lemma UncheckedPair(base: Image, x: Octet, y: Octet)
    requires |base| >= RC522 + 12
    ensures UncheckedBytesAreStock(WithUnchecked(base, x, y)) <==> x == 0x92 && y == 0xE0
  {
    assert WithUnchecked(base, x, y)[RC522 + 2..RC522 + 4] == [x, y];
  }

  lemma UncheckedStart(base: Image, code: Code, x: Octet, y: Octet)
    requires Buildable(base, code) && |base| == BASE_SIZE
    ensures var start, other := Start(base, code), Start(WithUnchecked(base, x, y), code);
            && |other| == |start|
            && (forall p :: 0 <= p < |start| && p != RC522 + 2 && p != RC522 + 3 ==> other[p] == start[p])
            && AllMatch(other, Wanted())
  {
    hide Installed, Wanted, Find, Apply, Slice;
    var start, other := Start(base, code), Start(WithUnchecked(base, x, y), code);
    forall w | w in Wanted()
      ensures Matches(other, w)
    {
      var k :| 0 <= k < 12 && Wanted()[k] == w;
      WantedSpan(k);
      MatchFits(start, w);
      WantedElsewhere(k);
      assert start[w.offset..w.offset + |w.bytes|] == other[w.offset..w.offset + |w.bytes|];
    }
  }

  lemma WantedElsewhere(k: nat)
    requires k < 12
    ensures var w := Wanted()[k]; w.offset + |w.bytes| <= RC522 + 2 || RC522 + 4 <= w.offset
  {
    if k < 6 {
    } else {
    }
  }

  lemma UncheckedEdits(base: Image, code: Code, x: Octet, y: Octet)
    requires Buildable(base, code) && |base| == BASE_SIZE
    ensures var start, other := Start(base, code), Start(WithUnchecked(base, x, y), code);
            var edits := Installed(code, |base| - 8);
            |other| == |start| && Apply(other, edits) == Apply(start, edits)
  {
    hide Installed, Wanted, Find, Put, SPANS, WithUnchecked, Matches, Start, Apply;
    var start, other, edits := Start(base, code), Start(WithUnchecked(base, x, y), code), Installed(code, |base| - 8);
    var goal := Apply(start, edits);
    UncheckedStart(base, code, x, y);
    InstalledApart(code, |base| - 8);
    forall p | 0 <= p < |other| && other[p] != goal[p]
      ensures Covered(edits, p)
    {
      InstalledSpan(code, |base| - 8, 1);
      FirstSpans();
      assert edits[1] in edits;
      if !Covered(edits, p) {
        ApplyOutside(start, edits, p);
      }
    }
    forall k, p | 0 <= k < |edits| && 0 <= p < |goal| && edits[k].Covers(p)
      ensures edits[k].bytes[p - edits[k].offset] == goal[p]
    {
      assert !Covered(edits[k + 1..], p);
      ApplyInside(start, edits, k, p);
    }
    ApplyReaches(other, edits, goal);
  }

  lemma FirstSpans()
    ensures SPANS[0] == (UID, 4) && SPANS[1] == (RC522, 4)
  {
  }

  // ---- There is something to build ----

  /** A toolchain that produces no code at all. */
  const NO_CODE: Code := Code([], [], [], [], [], [], [], [], BASE_ADDR)

  const VERSION_PLACE: nat := 16

  /** Zeros, but for the version string, the stock bytes of the half-checked hook, and what the builder wants. */
  function Seeds(): (edits: seq<Edit>)
    ensures |edits| == 14
  {
    [Edit(VERSION_PLACE, OLD_VERSION), Edit(RC522, [0x01, 0x20, 0x92, 0xE0])] + Wanted()
  }

  lemma SeedsFit()
    ensures AllFit(Seeds(), BASE_SIZE - 8)
    ensures forall k, p :: 0 <= k < 12 && Wanted()[k].Covers(p) ==> p >= STATUS && p != RC522 + 2 && p != RC522 + 3
  {
    hide Wanted, SPANS;
    forall k | 0 <= k < 12
      ensures Wanted()[k].Fits(BASE_SIZE - 8) && Wanted()[k].offset >= STATUS
    {
      WantedSpan(k);
      SpanBounds(k);
    }
    forall k, p | 0 <= k < 12 && Wanted()[k].Covers(p)
      ensures p >= STATUS && p != RC522 + 2 && p != RC522 + 3
    {
      WantedElsewhere(k);
    }
  }

  lemma SpanBounds(k: nat)
    requires k < 12
    ensures STATUS <= SPANS[k].0 && SPANS[k].0 + SPANS[k].1 <= BASE_SIZE - 8
  {
  }

  function Seeded(): (body: Image)
    ensures |body| == BASE_SIZE - 8
  {
    SeedsFit();
    Apply(seq(BASE_SIZE - 8, _ => 0), Seeds())
  }

  lemma SeededWants(k: nat)
    requires k < 12
    ensures Matches(Seeded(), Wanted()[k])
  {
    hide Wanted, SPANS, Apply;
    var zeros, w := seq(BASE_SIZE - 8, _ => 0), Wanted()[k];
    SeedsFit();
    assert Seeds()[k + 2] == w && w in Seeds();
    forall p | w.offset <= p < w.offset + |w.bytes|
      ensures Seeded()[p] == w.bytes[p - w.offset]
    {
      forall e | e in Seeds()[k + 3..]
        ensures !e.Covers(p)
      {
        var j :| k + 3 <= j < 14 && Seeds()[j] == e;
        WantedSpan(k);
        WantedSpan(j - 2);
        SpansApart(k, j - 2);
      }
      ApplyInside(zeros, Seeds(), k + 2, p);
    }
    hide Seeds, Seeded, Matches;
    assert w.Fits(BASE_SIZE - 8);
    ShownMatches(Seeded(), w);
  }

  lemma ShownMatches(body: Image, w: Edit)
    requires w.Fits(|body|) && forall p :: w.offset <= p < w.offset + |w.bytes| ==> body[p] == w.bytes[p - w.offset]
    ensures Matches(body, w)
  {
    assert body[w.offset..w.offset + |w.bytes|] == w.bytes;
  }

  lemma SeededHead(k: nat, p: nat)
    requires (k == 0 && VERSION_PLACE <= p < VERSION_PLACE + 8) || (k == 1 && RC522 + 2 <= p < RC522 + 4)
    ensures p < BASE_SIZE - 8 && Seeded()[p] == Seeds()[k].bytes[p - Seeds()[k].offset]
  {
    hide Wanted, Apply;
    SeedsFit();
    forall e | e in Seeds()[k + 1..]
      ensures !e.Covers(p)
    {
      var j :| k + 1 <= j < 14 && Seeds()[j] == e;
      assert j >= 2 ==> e == Wanted()[j - 2];
    }
    ApplyInside(seq(BASE_SIZE - 8, _ => 0), Seeds(), k, p);
  }

  lemma NoCodeReaches()
    ensures Reachable(NO_CODE, BASE_SIZE - 8)
  {
  }

  /** Images that build, and whose script replays, do exist. */
  lemma SomethingBuilds()
    ensures var base := Seeded() + MAGIC;
            |base| == BASE_SIZE && Buildable(base, NO_CODE) && UncheckedBytesAreStock(base)
  {
    hide Wanted, SPANS, Seeded, Apply, Find, Reachable, Installed;
    var base, body := Seeded() + MAGIC, Seeded();
    assert base[|base| - 8..] == MAGIC && base[..|base| - 8] == body;
    assert Start(base, NO_CODE) == body;
    NoCodeReaches();
    forall w | w in Wanted()
      ensures Matches(body, w)
    {
      var k :| 0 <= k < 12 && Wanted()[k] == w;
      SeededWants(k);
    }
    VersionSurvives(body);
    SeededHead(1, RC522 + 2);
    SeededHead(1, RC522 + 3);
    assert base[RC522 + 2..RC522 + 4] == [0x92, 0xE0];
  }

  lemma VersionSurvives(body: Image)
    requires body == Seeded() && Reachable(NO_CODE, BASE_SIZE - 8)
    ensures AllFit(Installed(NO_CODE, BASE_SIZE - 8), |body|)
    ensures Find(Apply(body, Installed(NO_CODE, BASE_SIZE - 8)), OLD_VERSION, 0).Some?
  {
    hide Wanted, SPANS, Seeded, Apply, Find, Reachable, Installed;
    var edits := Installed(NO_CODE, BASE_SIZE - 8);
    forall k | 0 <= k < 12
      ensures edits[k].Fits(|body|) && edits[k].offset >= STATUS
    {
      InstalledSpan(NO_CODE, BASE_SIZE - 8, k);
      SpanBounds(k);
    }
    var edited := Apply(body, edits);
    forall p | VERSION_PLACE <= p < VERSION_PLACE + 8
      ensures edited[p] == OLD_VERSION[p - VERSION_PLACE]
    {
      SeededHead(0, p);
      ApplyOutside(body, edits, p);
    }
    assert edited[VERSION_PLACE..VERSION_PLACE + 8] == OLD_VERSION;
    FindIsFirst(edited, OLD_VERSION, 0, VERSION_PLACE);
  }

  // ---- The checksum guards the result ----

  function AsBytes(image: Image): (data: seq<bv8>)
    ensures |data| == |image|
  {
    seq(|image|, i requires 0 <= i < |image| => image[i] as bv8)
  }

  /** A flashed image that differs from the built one by a burst of up to sixteen bits is found out. */
  lemma ScriptChecksumGuards<D>(base: Image, code: Code, known: D, other: Image, p: nat)
    requires Buildable(base, code) && |other| == |FinalBody(base, code)| + 8
    requires Crc.DifferByBurst(AsBytes(other), AsBytes(FinalBody(base, code) + MAGIC), p)
    ensures Checksum(other) != Emit(FinalBody(base, code), VersionAt(base, code), known).resultCrc
  {
    hide FinalBody, VersionAt, Crc.Crc, Crc.DifferByBurst, HooksOf, PokesOf;
    Crc.BurstChangesCrc(0, AsBytes(other), AsBytes(FinalBody(base, code) + MAGIC), p);
  }
}
