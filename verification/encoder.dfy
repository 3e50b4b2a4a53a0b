/** encodeEuclidian: turns an integer template of length k into a vector of length
    k + 2 so that the inner product of a reference encoding and a probe encoding is
    the squared Euclidean distance of the two templates.
      reference: [t0+1, …, t(k-1)+1, 1, Σ(ti+1)²]
      probe:     [-2(t0+1), …, -2(t(k-1)+1), Σ(ti+1)², 1] */
module Encoder {
  import opened Oracles

  /** Every component shifted by one, so that a template of non-negative values
      becomes strictly positive. */
  function Shifted(template: seq<int>): seq<int>
  {
    seq(|template|, i requires 0 <= i < |template| => template[i] + 1)
  }

  /** ‖s‖² = Σ s[i]². */
  function SquaredNorm(s: seq<int>): int
  {
    Dot(s, s)
  }

  /** The factor applied to the shifted components: 1 for a reference, -2 for a probe. */
  function Multiplier(enrol: bool): int
  {
    if enrol then 1 else -2
  }

  /** The encoding of a template; `enrol` selects the reference form. */
  function Encoding(template: seq<int>, enrol: bool): (v: seq<int>)
    ensures |v| == |template| + 2
  {
    var s := Shifted(template);
    Scaled(Multiplier(enrol), s)
      + (if enrol then [1, SquaredNorm(s)] else [SquaredNorm(s), 1])
  }

  /** encodeEuclidian: preallocates a zero vector of length len+2, overwrites the
      first len entries while accumulating the squared norm of the shifted
      template, then fills the last two entries. */
  method EncodeEuclidian(template: seq<int>, enrol: bool) returns (r: seq<int>)
    ensures r == Encoding(template, enrol)
  {
    var result := new int[|template| + 2];
    var n := result.Length;
    var multiplier := 1;
    var squaredEuclidean := 0;
    if !enrol {
      multiplier := -2;
    }
    ghost var shifted := Shifted(template);
    for i := 0 to |template|
      invariant multiplier == Multiplier(enrol)
      invariant forall k :: 0 <= k < i ==> result[k] == multiplier * shifted[k]
      invariant squaredEuclidean == SquaredNorm(shifted[..i])
    {
      result[i] := template[i] + 1;
      assert shifted[..i + 1][..i] == shifted[..i];
      squaredEuclidean := squaredEuclidean + result[i] * result[i];
      result[i] := result[i] * multiplier;
    }
    assert shifted[..|template|] == shifted;
    if enrol {
      result[n - 2] := 1;
      result[n - 1] := squaredEuclidean;
    } else {
      result[n - 2] := squaredEuclidean;
      result[n - 1] := 1;
    }
    r := result[..];
    assert r == Encoding(template, enrol) by {
      var e := Encoding(template, enrol);
      assert forall k :: 0 <= k < |template| ==> r[k] == e[k];
    }
  }

  /** The reference encoding entry by entry. */
  lemma ReferenceEncodingEntries(template: seq<int>)
    ensures var v := Encoding(template, true);
      var n := |v|;
      n == |template| + 2
      && (forall i :: 0 <= i < |template| ==> v[i] == template[i] + 1)
      && v[n - 2] == 1
      && v[n - 1] == SquaredNorm(Shifted(template))
  {
  }

  /** The probe encoding entry by entry. */
  lemma ProbeEncodingEntries(template: seq<int>)
    ensures var v := Encoding(template, false);
      var n := |v|;
      n == |template| + 2
      && (forall i :: 0 <= i < |template| ==> v[i] == -2 * (template[i] + 1))
      && v[n - 2] == SquaredNorm(Shifted(template))
      && v[n - 1] == 1
  {
  }

  /** Shifting both templates by one does not change their distance. */
  lemma {:induction false} SquaredDistanceShifted(x: seq<int>, y: seq<int>)
    requires |x| == |y|
    ensures SquaredDistance(Shifted(x), Shifted(y)) == SquaredDistance(x, y)
    decreases |x|
  {
    if |x| > 0 {
      var n := |x| - 1;
      assert Shifted(x)[..n] == Shifted(x[..n]);
      assert Shifted(y)[..n] == Shifted(y[..n]);
      SquaredDistanceShifted(x[..n], y[..n]);
    }
  }

  /** The inner product of the two trailing pairs: 1·‖b‖² + ‖a‖²·1. */
  lemma TailDot(na: int, nb: int)
    ensures Dot([1, na], [nb, 1]) == nb + na
  {
    assert [1, na][..1] == [1] && [nb, 1][..1] == [nb];
    assert [1][..0] == [] && [nb][..0] == [];
    assert Dot([1], [nb]) == nb;
  }

  /** The central identity: reference(A) · probe(B) = Σ (A[i] - B[i])². */
  lemma EncodingInnerProduct(a: seq<int>, b: seq<int>)
    requires |a| == |b|
    ensures Dot(Encoding(a, true), Encoding(b, false)) == SquaredDistance(a, b)
  {
    var sa, sb := Shifted(a), Shifted(b);
    var na, nb := SquaredNorm(sa), SquaredNorm(sb);
    assert Scaled(1, sa) == sa;
    assert Encoding(a, true) == sa + [1, na];
    assert Encoding(b, false) == Scaled(-2, sb) + [nb, 1];
    DotAppend(sa, [1, na], Scaled(-2, sb), [nb, 1]);
    DotScaled(sa, -2, sb);
    TailDot(na, nb);
    SquaredDistanceExpand(sa, sb);
    SquaredDistanceShifted(a, b);
  }

  /** Each shifted component of a non-negative template contributes at least 1 to
      the squared norm. */
  lemma {:induction false} SquaredNormAtLeastLength(template: seq<int>)
    requires forall i :: 0 <= i < |template| ==> template[i] >= 0
    ensures SquaredNorm(Shifted(template)) >= |template|
    decreases |template|
  {
    if |template| > 0 {
      var n := |template| - 1;
      assert Shifted(template)[..n] == Shifted(template[..n]);
      SquaredNormAtLeastLength(template[..n]);
      var c := template[n] + 1;
      assert c * c >= c;
    }
  }

  /** The +1 shift keeps a non-empty, non-negative template's reference encoding
      strictly positive in every entry. */
  lemma ReferenceEncodingPositive(template: seq<int>)
    requires |template| > 0
    requires forall i :: 0 <= i < |template| ==> template[i] >= 0
    ensures forall k :: 0 <= k < |Encoding(template, true)| ==> Encoding(template, true)[k] >= 1
  {
    SquaredNormAtLeastLength(template);
  }

  /** With every component in [0, m], the squared norm of the shifted template is at
      most (m+1)²·len. */
  lemma {:induction false} SquaredNormBound(template: seq<int>, m: int)
    requires forall i :: 0 <= i < |template| ==> 0 <= template[i] <= m
    ensures SquaredNorm(Shifted(template)) <= (m + 1) * (m + 1) * |template|
    decreases |template|
  {
    if |template| > 0 {
      var n := |template| - 1;
      var shifted := Shifted(template);
      assert shifted[..n] == Shifted(template[..n]);
      SquaredNormBound(template[..n], m);
      var c := shifted[n];
      var bound := (m + 1) * (m + 1);
      assert SquaredNorm(shifted) == SquaredNorm(shifted[..n]) + c * c;
      assert 0 < c <= m + 1;
      assert c * c <= bound by {
        assert c * c <= c * (m + 1);
        assert c * (m + 1) <= (m + 1) * (m + 1);
      }
      assert bound * n + bound == bound * |template|;
    }
  }
}
