/** Bytes, and a text standing at a place of a longer one. */
module Bytes {
  type byte = x: int | 0 <= x < 256

  type Text = seq<byte>

  /** `t` stands in `b` at `p`. */
  predicate At(b: Text, p: nat, t: Text) {
    p + |t| <= |b| && forall i :: 0 <= i < |t| ==> b[p + i] == t[i]
  }

  lemma {:induction false} AtSlice(b: Text, p: nat, t: Text)
    ensures At(b, p, t) <==> p + |t| <= |b| && b[p..p + |t|] == t
  {
    if p + |t| <= |b| {
      var u := b[p..p + |t|];
      assert forall i :: 0 <= i < |t| ==> u[i] == b[p + i];
    }
  }

  lemma {:induction false} AtConcat(b: Text, p: nat, s: Text, t: Text)
    ensures At(b, p, s + t) <==> At(b, p, s) && At(b, p + |s|, t)
  {
    var u := s + t;
    assert forall i :: 0 <= i < |s| ==> u[i] == s[i];
    assert forall i :: 0 <= i < |t| ==> u[|s| + i] == t[i];
    if At(b, p, u) {
      forall i | 0 <= i < |t| ensures b[p + |s| + i] == t[i] {
        assert b[p + (|s| + i)] == u[|s| + i];
      }
    }
    if At(b, p, s) && At(b, p + |s|, t) {
      forall i | 0 <= i < |u| ensures b[p + i] == u[i] {
        if i >= |s| {
          assert b[p + |s| + (i - |s|)] == t[i - |s|];
        }
      }
    }
  }

  lemma {:induction false} AtIndex(b: Text, p: nat, t: Text, i: nat)
    requires At(b, p, t) && i < |t|
    ensures b[p + i] == t[i]
  {
  }

  lemma {:induction false} AtSuffix(b: Text, p: nat, t: Text, k: nat)
    requires At(b, p, t) && k <= |t|
    ensures At(b, p + k, t[k..])
  {
    forall i | 0 <= i < |t[k..]| ensures b[p + k + i] == t[k..][i] {
      assert b[p + (k + i)] == t[k + i];
    }
  }

  lemma {:induction false} AtTail(b: Text, p: nat, t: Text)
    requires At(b, p, t) && t != []
    ensures b[p] == t[0] && At(b, p + 1, t[1..])
  {
    AtIndex(b, p, t, 0);
    AtSuffix(b, p, t, 1);
  }
}
