/**
 * The `Output` view over the flat vector the decoder produces, and the
 * reconstruction of the carbon chain from it (`Output.to_cartesian`).
 *
 * Layout of a vector of length `3 + 3n` (plus at most two unread entries):
 *   [0, 3)          displacement
 *   [3, 3+n)        bend angles divided by 180
 *   [3+n, 3+2n)     sines of the dihedral angles
 *   [3+2n, 3+3n)    cosines of the dihedral angles
 */
module FeatureVector {
  import opened Wrappers
  import opened Geometry
  import PyList

  /** The default of `to_cartesian`'s `bond_length` argument. */
  const DefaultBondLength: real := 3.8

  /** An `Output`: its only state is the decoder vector it was built from. */
  datatype Output = Output(vector: seq<real>)

  /**
   * `n = int((len(vector) - 3) / 3)`: the quotient rounded toward zero, so an
   * empty vector gives -1 and a vector of 1 to 5 entries gives 0.
   */
  function ResidueCount(o: Output): (n: int)
    ensures |o.vector| == 0 ==> n == -1
    ensures 0 < |o.vector| < 3 ==> n == 0
    ensures |o.vector| >= 3 ==> n >= 0 && 3 + 3 * n <= |o.vector| < 6 + 3 * n
  {
    var d := |o.vector| - 3;
    if d >= 0 then d / 3 else -((-d) / 3)
  }

  /** `displacement()`: the first three entries (fewer if the vector is shorter). */
  function Displacement(o: Output): (r: seq<real>)
    ensures |r| == if |o.vector| < 3 then |o.vector| else 3
    ensures forall i :: 0 <= i < |r| ==> r[i] == o.vector[i]
  {
    PyList.Slice(o.vector, 0, 3)
  }

  /** `alpha()`: the n stored bend angles, each multiplied by 180. */
  function Alpha(o: Output): (r: seq<real>)
    ensures |r| == if ResidueCount(o) < 0 then 0 else ResidueCount(o)
    ensures forall i :: 0 <= i < |r| ==> r[i] == 180.0 * o.vector[3 + i]
  {
    var n := ResidueCount(o);
    var raw := PyList.Slice(o.vector, 3, 3 + n);
    seq(|raw|, i requires 0 <= i < |raw| => 180.0 * raw[i])
  }

  /** `sin_theta()`: the n entries after the bend angles. */
  function SinTheta(o: Output): (r: seq<real>)
    ensures |r| == if ResidueCount(o) < 0 then 0 else ResidueCount(o)
    ensures forall i :: 0 <= i < |r| ==> r[i] == o.vector[3 + ResidueCount(o) + i]
  {
    var n := ResidueCount(o);
    PyList.Slice(o.vector, 3 + n, 3 + 2 * n)
  }

  /** `cos_theta()`: the last n entries of the laid-out part. */
  function CosTheta(o: Output): (r: seq<real>)
    ensures |r| == if ResidueCount(o) < 0 then 0 else ResidueCount(o)
    ensures forall i :: 0 <= i < |r| ==> r[i] == o.vector[3 + 2 * ResidueCount(o) + i]
  {
    var n := ResidueCount(o);
    PyList.Slice(o.vector, 3 + 2 * n, 3 + 3 * n)
  }

  /** `theta()`: compute_dihedral applied to each (sin, cos) pair. */
  function Theta(o: Output, num: Numerics): (r: seq<real>)
    ensures |r| == |SinTheta(o)| == |CosTheta(o)|
    ensures forall i :: 0 <= i < |r| ==>
      r[i] == num.dihedral(o.vector[3 + ResidueCount(o) + i], o.vector[3 + 2 * ResidueCount(o) + i])
  {
    var s, c := SinTheta(o), CosTheta(o);
    seq(|s|, i requires 0 <= i < |s| => num.dihedral(s[i], c[i]))
  }

  /** The four views cover exactly the first 3 + 3n entries, and at most two entries are left over. */
  lemma Layout(o: Output)
    requires |o.vector| >= 3
    ensures var n := ResidueCount(o);
      && |Displacement(o)| == 3
      && Displacement(o) + PyList.Slice(o.vector, 3, 3 + n) + SinTheta(o) + CosTheta(o) == o.vector[..3 + 3 * n]
      && |o.vector| - (3 + 3 * n) <= 2
  {
    var v, n := o.vector, ResidueCount(o);
    assert Displacement(o) == v[..3];
    assert SinTheta(o) == v[3 + n..3 + 2 * n];
    assert CosTheta(o) == v[3 + 2 * n..3 + 3 * n];
    assert v[..3 + 3 * n] == v[..3] + v[3..3 + n] + v[3 + n..3 + 2 * n] + v[3 + 2 * n..3 + 3 * n];
  }

  /** Entries past 3 + 3n are never read: two vectors of one length that agree before them give the same views. */
  lemma TrailingEntriesUnread(o1: Output, o2: Output, num: Numerics)
    requires |o1.vector| == |o2.vector| >= 3 + 3 * ResidueCount(o1)
    requires o1.vector[..3 + 3 * ResidueCount(o1)] == o2.vector[..3 + 3 * ResidueCount(o1)]
    ensures Displacement(o1) == Displacement(o2)
    ensures Alpha(o1) == Alpha(o2)
    ensures SinTheta(o1) == SinTheta(o2) && CosTheta(o1) == CosTheta(o2)
    ensures Theta(o1, num) == Theta(o2, num)
  {
    var n := ResidueCount(o1);
    assert ResidueCount(o2) == n;
    forall i | 0 <= i < 3 + 3 * n
      ensures o1.vector[i] == o2.vector[i]
    {
      assert o1.vector[..3 + 3 * n][i] == o2.vector[..3 + 3 * n][i];
    }
  }

  /** `(alpha_0, theta_0, alpha_1, theta_1, ...)`, as `zip` and the inner concatenate build it. */
  function Interleave(a: seq<real>, t: seq<real>): (r: seq<real>)
    requires |a| == |t|
    ensures |r| == 2 * |a|
    ensures forall i :: 0 <= i < |a| ==> r[2 * i] == a[i] && r[2 * i + 1] == t[i]
  {
    if a == [] then [] else [a[0], t[0]] + Interleave(a[1..], t[1..])
  }

  /**
   * `to_original()`: the displacement followed by the interleaved angles. With
   * no angle pair the inner `np.concatenate` receives an empty list and raises.
   */
  function ToOriginal(o: Output, num: Numerics): (r: Result<seq<real>>)
    ensures r.Err? <==> ResidueCount(o) <= 0
    ensures r.Ok? ==> var n := ResidueCount(o);
      && |r.value| == 3 + 2 * n
      && (forall i :: 0 <= i < 3 ==> r.value[i] == o.vector[i])
      && (forall i :: 0 <= i < n ==>
            r.value[3 + 2 * i] == 180.0 * o.vector[3 + i]
            && r.value[4 + 2 * i] == num.dihedral(o.vector[3 + n + i], o.vector[3 + 2 * n + i]))
  {
    if ResidueCount(o) <= 0 then Err(EmptyConcatenation)
    else
      DisplacementThenAngles(Displacement(o), Alpha(o), Theta(o, num));
      Ok(Displacement(o) + Interleave(Alpha(o), Theta(o, num)))
  }

  /** Behind a three-entry prefix, pair i of the interleaving sits at 3 + 2i and 4 + 2i. */
  lemma DisplacementThenAngles(d: seq<real>, a: seq<real>, t: seq<real>)
    requires |d| == 3 && |a| == |t|
    ensures var r := d + Interleave(a, t);
      && |r| == 3 + 2 * |a|
      && (forall i :: 0 <= i < 3 ==> r[i] == d[i])
      && (forall i :: 0 <= i < |a| ==> r[3 + 2 * i] == a[i] && r[4 + 2 * i] == t[i])
  {
    var angles := Interleave(a, t);
    assert forall i :: 0 <= i < |a| ==> (d + angles)[3 + 2 * i] == angles[2 * i];
    assert forall i :: 0 <= i < |a| ==> (d + angles)[4 + 2 * i] == angles[2 * i + 1];
  }

  // ---------------------------------------------------------------------------
  // to_cartesian

  /** The third seed atom `c_2`: the apex of the first bend angle, in the plane z = 0. */
  function ThirdSeed(num: Numerics, bondLength: real, alpha0: real): Vec3
  {
    var a := num.radians(180.0 - alpha0);
    Vec3(bondLength * (1.0 + num.cos(a)), bondLength * num.sin(a), 0.0)
  }

  /** The three seed atoms: the origin, (bond, 0, 0), and the third seed. */
  function SeedAtoms(num: Numerics, bondLength: real, alpha0: real): seq<Vec3>
  {
    [Origin, Vec3(bondLength, 0.0, 0.0), ThirdSeed(num, bondLength, alpha0)]
  }

  /**
   * One placement: the three previous atoms are shifted so that the first of
   * them is the origin, z_matrix_to_cartesian places the new atom, and the
   * shift is undone.
   */
  function NextAtom(num: Numerics, a0: Vec3, a1: Vec3, a2: Vec3, bond: real, alpha: real, theta: real): Vec3
  {
    Add(num.place(Origin, Subtract(a1, a0), Subtract(a2, a0), bond, num.radians(alpha), num.radians(theta)), a0)
  }

  /** The bond length passed at loop step `count`: the displacement norm at step n - 2, else `bondLength`. */
  function StepBond(o: Output, num: Numerics, bondLength: real, count: int): real
  {
    if count == ResidueCount(o) - 2 then num.norm(Displacement(o)) else bondLength
  }

  /** The atom list after `k` steps of the loop in `to_cartesian`. */
  function Chain(o: Output, num: Numerics, bondLength: real, k: nat): (r: seq<Vec3>)
    requires k < ResidueCount(o)
    ensures |r| == k + 3
    decreases k
  {
    if k == 0 then SeedAtoms(num, bondLength, Alpha(o)[0])
    else
      var prev := Chain(o, num, bondLength, k - 1);
      prev + [NextAtom(num, prev[k - 1], prev[k], prev[k + 1],
                       StepBond(o, num, bondLength, k - 1), Alpha(o)[k], Theta(o, num)[k])]
  }

  /** One more step appends the atom placed from the last three. */
  lemma ChainStep(o: Output, num: Numerics, bondLength: real, k: nat)
    requires k + 1 < ResidueCount(o)
    ensures var prev := Chain(o, num, bondLength, k);
      Chain(o, num, bondLength, k + 1)
      == prev + [NextAtom(num, prev[k], prev[k + 1], prev[k + 2],
                          StepBond(o, num, bondLength, k), Alpha(o)[k + 1], Theta(o, num)[k + 1])]
  {
  }

  /** The loop only appends: the list after `j` steps is a prefix of the list after `k >= j` steps. */
  lemma {:induction false} ChainAppendOnly(o: Output, num: Numerics, bondLength: real, j: nat, k: nat)
    requires j <= k < ResidueCount(o)
    ensures Chain(o, num, bondLength, j) == Chain(o, num, bondLength, k)[..j + 3]
    decreases k
  {
    if j < k {
      ChainAppendOnly(o, num, bondLength, j, k - 1);
      var prev := Chain(o, num, bondLength, k - 1);
      assert Chain(o, num, bondLength, k)[..k + 2] == prev;
      assert Chain(o, num, bondLength, k)[..j + 3] == prev[..j + 3];
    }
  }

  /** Atom `i >= 3` is placed from atoms i-3, i-2, i-1 with the pair at index i-2 and the bond of step i-3. */
  lemma {:induction false} ChainAtom(o: Output, num: Numerics, bondLength: real, k: nat, i: nat)
    requires k < ResidueCount(o) && 3 <= i < k + 3
    ensures var r := Chain(o, num, bondLength, k);
      r[i] == NextAtom(num, r[i - 3], r[i - 2], r[i - 1], StepBond(o, num, bondLength, i - 3),
                       Alpha(o)[i - 2], Theta(o, num)[i - 2])
    decreases k
  {
    if i == k + 2 {
      ChainLast(o, num, bondLength, k);
    } else {
      ChainAtom(o, num, bondLength, k - 1, i);
      ChainKeeps(o, num, bondLength, k, i);
      ChainKeeps(o, num, bondLength, k, i - 1);
      ChainKeeps(o, num, bondLength, k, i - 2);
      ChainKeeps(o, num, bondLength, k, i - 3);
    }
  }

  /** The atom appended by step k. */
  lemma ChainLast(o: Output, num: Numerics, bondLength: real, k: nat)
    requires 1 <= k < ResidueCount(o)
    ensures var r := Chain(o, num, bondLength, k);
      r[k + 2] == NextAtom(num, r[k - 1], r[k], r[k + 1], StepBond(o, num, bondLength, k - 1),
                           Alpha(o)[k], Theta(o, num)[k])
  {
    var prev := Chain(o, num, bondLength, k - 1);
    assert Chain(o, num, bondLength, k)[..k + 2] == prev;
  }

  /** Step k keeps every atom already placed. */
  lemma ChainKeeps(o: Output, num: Numerics, bondLength: real, k: nat, j: nat)
    requires 1 <= k < ResidueCount(o) && j < k + 2
    ensures Chain(o, num, bondLength, k)[j] == Chain(o, num, bondLength, k - 1)[j]
  {
  }

  /** For n >= 1 the finished list has n + 2 atoms and starts with the three seeds. */
  lemma CartesianSeeds(o: Output, num: Numerics, bondLength: real)
    requires ResidueCount(o) >= 1
    ensures var r := Chain(o, num, bondLength, ResidueCount(o) - 1);
      && |r| == ResidueCount(o) + 2
      && r[0] == Origin
      && r[1] == Vec3(bondLength, 0.0, 0.0)
      && r[2] == ThirdSeed(num, bondLength, 180.0 * o.vector[3])
      && r[2].z == 0.0
  {
    ChainAppendOnly(o, num, bondLength, 0, ResidueCount(o) - 1);
    var r := Chain(o, num, bondLength, ResidueCount(o) - 1);
    assert r[..3] == SeedAtoms(num, bondLength, Alpha(o)[0]);
    assert r[2] == r[..3][2];
  }

  /**
   * Every atom after the seeds of the finished list is placed with
   * `bondLength`, except the last one, which uses the norm of the displacement
   * whenever the loop runs at all.
   */
  lemma CartesianBonds(o: Output, num: Numerics, bondLength: real)
    requires ResidueCount(o) >= 1
    ensures var n, r := ResidueCount(o), Chain(o, num, bondLength, ResidueCount(o) - 1);
      && (forall i :: 3 <= i < n + 1 ==>
            r[i] == NextAtom(num, r[i - 3], r[i - 2], r[i - 1], bondLength, Alpha(o)[i - 2], Theta(o, num)[i - 2]))
      && (n >= 2 ==>
            r[n + 1] == NextAtom(num, r[n - 2], r[n - 1], r[n], num.norm(Displacement(o)),
                                 Alpha(o)[n - 1], Theta(o, num)[n - 1]))
  {
    var n, r := ResidueCount(o), Chain(o, num, bondLength, ResidueCount(o) - 1);
    forall i | 3 <= i < n + 1
      ensures r[i] == NextAtom(num, r[i - 3], r[i - 2], r[i - 1], bondLength, Alpha(o)[i - 2], Theta(o, num)[i - 2])
    {
      ChainAtom(o, num, bondLength, n - 1, i);
      assert StepBond(o, num, bondLength, i - 3) == bondLength;
    }
    if n >= 2 {
      ChainAtom(o, num, bondLength, n - 1, n + 1);
    }
  }

  /**
   * `to_cartesian(bond_length)`: seeds three atoms, then appends one atom per
   * remaining (alpha, theta) pair. With no bend angle, `alpha[0]` raises.
   */
  method ToCartesian(o: Output, num: Numerics, bondLength: real) returns (r: Result<seq<Vec3>>)
    ensures r.Err? <==> ResidueCount(o) < 1
    ensures r.Ok? ==> r.value == Chain(o, num, bondLength, ResidueCount(o) - 1)
  {
    var alpha := Alpha(o);
    var theta := Theta(o, num);
    if |alpha| == 0 {
      return Err(IndexOutOfRange);
    }
    var n := ResidueCount(o);
    var atoms := [Origin, Vec3(bondLength, 0.0, 0.0), ThirdSeed(num, bondLength, alpha[0])];
    var count := 0;
    while count < |alpha| - 1
      invariant 0 <= count <= n - 1
      invariant atoms == Chain(o, num, bondLength, count)
    {
      var c0 := atoms[|atoms| - 3];
      var cj := Subtract(atoms[|atoms| - 2], c0);
      var ck := Subtract(atoms[|atoms| - 1], c0);
      var cNew;
      if count == n - 2 {
        cNew := num.place(Origin, cj, ck, num.norm(Displacement(o)), num.radians(alpha[count + 1]), num.radians(theta[count + 1]));
      } else {
        cNew := num.place(Origin, cj, ck, bondLength, num.radians(alpha[count + 1]), num.radians(theta[count + 1]));
      }
      cNew := Add(cNew, c0);
      ChainStep(o, num, bondLength, count);
      atoms := atoms + [cNew];
      count := count + 1;
    }
    return Ok(atoms);
  }

  /** `to_cartesian()` with the default `bond_length` of 3.8. */
  method ToCartesianDefault(o: Output, num: Numerics) returns (r: Result<seq<Vec3>>)
    ensures r.Err? <==> ResidueCount(o) < 1
    ensures r.Ok? ==> r.value == Chain(o, num, DefaultBondLength, ResidueCount(o) - 1)
  {
    r := ToCartesian(o, num, DefaultBondLength);
  }
}
