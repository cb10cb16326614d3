/** In-place edits of a byte string that keep its length, and when their order does not matter. */
module Edits {
  import opened Octets

  type Image = seq<Octet>

  datatype Edit = Edit(offset: nat, bytes: Image) {
    predicate Covers(p: int) { offset <= p < offset + |bytes| }
    predicate Fits(n: nat) { offset + |bytes| <= n }
  }

  predicate Apart(a: Edit, b: Edit) {
    a.offset + |a.bytes| <= b.offset || b.offset + |b.bytes| <= a.offset
  }

  ghost predicate AllFit(edits: seq<Edit>, n: nat) { forall e :: e in edits ==> e.Fits(n) }

  ghost predicate AllApart(edits: seq<Edit>) {
    forall i, j :: 0 <= i < j < |edits| ==> Apart(edits[i], edits[j])
  }

  ghost predicate Covered(edits: seq<Edit>, p: int) { exists e :: e in edits && e.Covers(p) }

  function Put(body: Image, e: Edit): (r: Image)
    requires e.Fits(|body|)
    ensures |r| == |body|
    ensures forall p :: 0 <= p < |body| ==> r[p] == if e.Covers(p) then e.bytes[p - e.offset] else body[p]
  {
    body[..e.offset] + e.bytes + body[e.offset + |e.bytes|..]
  }

  function Apply(body: Image, edits: seq<Edit>): (r: Image)
    requires AllFit(edits, |body|)
    ensures |r| == |body|
    decreases |edits|
  {
    if edits == [] then body else Apply(Put(body, edits[0]), edits[1..])
  }

  lemma {:induction false} ApplyOutside(body: Image, edits: seq<Edit>, p: nat)
    requires AllFit(edits, |body|) && p < |body| && !Covered(edits, p)
    ensures Apply(body, edits)[p] == body[p]
    decreases |edits|
  {
    if edits != [] {
      assert edits[0] in edits;
      assert !Covered(edits[1..], p);
      ApplyOutside(Put(body, edits[0]), edits[1..], p);
    }
  }

  /** A byte of an edit that no later edit overwrites is there at the end. */
  lemma {:induction false} ApplyInside(body: Image, edits: seq<Edit>, k: nat, p: nat)
    requires AllFit(edits, |body|) && k < |edits| && edits[k].Covers(p) && !Covered(edits[k + 1..], p)
    ensures p < |body| && Apply(body, edits)[p] == edits[k].bytes[p - edits[k].offset]
    decreases |edits|
  {
    assert edits[k] in edits && edits[0] in edits;
    if k == 0 {
      ApplyOutside(Put(body, edits[0]), edits[1..], p);
    } else {
      assert edits[1..][k - 1] == edits[k] && edits[1..][k..] == edits[k + 1..];
      ApplyInside(Put(body, edits[0]), edits[1..], k - 1, p);
    }
  }

  lemma {:induction false} ApplyAppend(body: Image, edits: seq<Edit>, e: Edit)
    requires AllFit(edits, |body|) && e.Fits(|body|)
    ensures AllFit(edits + [e], |body|)
    ensures Apply(body, edits + [e]) == Put(Apply(body, edits), e)
    decreases |edits|
  {
    if edits != [] {
      assert edits[0] in edits;
      assert (edits + [e])[1..] == edits[1..] + [e];
      ApplyAppend(Put(body, edits[0]), edits[1..], e);
    } else {
      assert [e][1..] == [];
    }
  }

  /**
   * Edits lead from body to goal whenever every byte where they still differ will be written, and every
   * byte an edit gets wrong will be written again.
   */
  lemma {:induction false} ApplyReaches(body: Image, edits: seq<Edit>, goal: Image)
    requires |body| == |goal| && AllFit(edits, |body|)
    requires forall p :: 0 <= p < |body| && body[p] != goal[p] ==> Covered(edits, p)
    requires forall k, p :: 0 <= k < |edits| && 0 <= p < |goal| && edits[k].Covers(p)
               ==> edits[k].bytes[p - edits[k].offset] == goal[p] || Covered(edits[k + 1..], p)
    ensures Apply(body, edits) == goal
    decreases |edits|
  {
    if edits == [] {
      assert forall p :: 0 <= p < |body| ==> body[p] == goal[p];
    } else {
      var e, rest := edits[0], edits[1..];
      assert e in edits;
      var next := Put(body, e);
      forall p | 0 <= p < |next| && next[p] != goal[p]
        ensures Covered(rest, p)
      {
        if !e.Covers(p) {
          var f :| f in edits && f.Covers(p);
          assert f in rest;
        }
      }
      forall k, p | 0 <= k < |rest| && 0 <= p < |goal| && rest[k].Covers(p)
        ensures rest[k].bytes[p - rest[k].offset] == goal[p] || Covered(rest[k + 1..], p)
      {
        assert rest[k] == edits[k + 1] && rest[k + 1..] == edits[k + 2..];
      }
      ApplyReaches(next, rest, goal);
    }
  }

  lemma SameMembers(a: seq<Edit>, b: seq<Edit>)
    requires multiset(a) == multiset(b)
    ensures forall e :: e in a <==> e in b
  {
    assert forall e :: e in a <==> e in multiset(a);
    assert forall e :: e in b <==> e in multiset(b);
  }

  /** Edits that touch disjoint bytes may be applied in any order. */
  lemma ApplyCommutes(body: Image, a: seq<Edit>, b: seq<Edit>)
    requires AllFit(a, |body|) && AllFit(b, |body|)
    requires AllApart(a) && AllApart(b) && multiset(a) == multiset(b)
    ensures Apply(body, a) == Apply(body, b)
  {
    SameMembers(a, b);
    var goal := Apply(body, a);
    forall p | 0 <= p < |body| && body[p] != goal[p]
      ensures Covered(b, p)
    {
      if !Covered(a, p) {
        ApplyOutside(body, a, p);
      } else {
        var e :| e in a && e.Covers(p);
        assert e in b;
      }
    }
    forall k, p | 0 <= k < |b| && 0 <= p < |goal| && b[k].Covers(p)
      ensures b[k].bytes[p - b[k].offset] == goal[p]
    {
      assert b[k] in a;
      var i :| 0 <= i < |a| && a[i] == b[k];
      assert !Covered(a[i + 1..], p);
      ApplyInside(body, a, i, p);
    }
    ApplyReaches(body, b, goal);
  }

  lemma {:induction false} ApplyConcat(body: Image, a: seq<Edit>, b: seq<Edit>)
    requires AllFit(a, |body|) && AllFit(b, |body|)
    ensures AllFit(a + b, |body|) && Apply(body, a + b) == Apply(Apply(body, a), b)
    decreases |a|
  {
    if a == [] {
      assert a + b == b;
    } else {
      assert a[0] in a && (a + b)[1..] == a[1..] + b;
      ApplyConcat(Put(body, a[0]), a[1..], b);
    }
  }
}
