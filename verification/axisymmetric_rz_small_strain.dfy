/**
 * ComputeAxisymmetricRZSmallStrain: the out-of-plane (hoop) strain of an
 * axisymmetric RZ small-strain computation, and the set-up check that every
 * mesh subdomain uses the RZ coordinate system.
 */
module AxisymmetricRZ {
  import opened Wrappers

  /** The coordinate systems a subdomain may be assigned (Moose::CoordinateSystemType). */
  datatype CoordSystem = CoordXYZ | CoordRZ | CoordRSpherical

  type SubdomainID = nat

  datatype SetupError = CoordSystemNotRZ

  /**
   * The hoop strain u_r / r at a quadrature point whose radial coordinate is
   * `radius` and whose radial displacement is `dispR`; on the axis (radius 0)
   * the strain is taken to be 0 rather than dividing by zero.
   */
  function ComputeStrainZZ(dispR: real, radius: real): (strain: real)
    ensures radius == 0.0 ==> strain == 0.0
    ensures radius != 0.0 ==> strain * radius == dispR
  {
    if radius != 0.0 then dispR / radius else 0.0
  }

  /** A radial displacement proportional to the radius gives that constant as hoop strain, off the axis. */
  lemma UniformExpansionStrain(c: real, radius: real)
    requires radius != 0.0
    ensures ComputeStrainZZ(c * radius, radius) == c
  {
    var e := ComputeStrainZZ(c * radius, radius);
    assert (e - c) * radius == 0.0;
  }

  /** Hoop strain is linear in the radial displacement at a fixed point. */
  lemma StrainLinearInDisplacement(u1: real, u2: real, k: real, radius: real)
    ensures ComputeStrainZZ(k * u1 + u2, radius) == k * ComputeStrainZZ(u1, radius) + ComputeStrainZZ(u2, radius)
  {
    if radius != 0.0 {
      var e1, e2 := ComputeStrainZZ(u1, radius), ComputeStrainZZ(u2, radius);
      var e := ComputeStrainZZ(k * u1 + u2, radius);
      assert e * radius == (k * e1 + e2) * radius;
    }
  }

  /**
   * The set-up check over the mesh's subdomains, visited in order: the first
   * subdomain whose coordinate system is not RZ stops the run with an error.
   */
  function InitialSetup(subdomains: seq<SubdomainID>, coordSystem: SubdomainID -> CoordSystem): (r: Outcome<SetupError>)
    ensures r == Pass <==> forall i :: 0 <= i < |subdomains| ==> coordSystem(subdomains[i]) == CoordRZ
    ensures r != Pass ==> r == Fail(CoordSystemNotRZ)
  {
    if subdomains == [] then Pass
    else if coordSystem(subdomains[0]) != CoordRZ then Fail(CoordSystemNotRZ)
    else
      var rest := InitialSetup(subdomains[1..], coordSystem);
      assert forall i :: 1 <= i < |subdomains| ==> subdomains[i] == subdomains[1..][i - 1];
      rest
  }

  /** A mesh with no subdomains, or with only RZ subdomains, passes the set-up check. */
  lemma AllRZPasses(subdomains: seq<SubdomainID>, coordSystem: SubdomainID -> CoordSystem)
    requires forall s :: s in subdomains ==> coordSystem(s) == CoordRZ
    ensures InitialSetup(subdomains, coordSystem) == Pass
  {
  }

  /** The verdict depends only on the set of subdomains, not on their order or repetition. */
  lemma SetupDependsOnlyOnSubdomainSet(a: seq<SubdomainID>, b: seq<SubdomainID>, coordSystem: SubdomainID -> CoordSystem)
    requires forall s :: s in a <==> s in b
    ensures InitialSetup(a, coordSystem) == InitialSetup(b, coordSystem)
  {
    if forall i :: 0 <= i < |a| ==> coordSystem(a[i]) == CoordRZ {
      forall i | 0 <= i < |b| ensures coordSystem(b[i]) == CoordRZ {
        assert b[i] in a;
      }
    }
    if forall i :: 0 <= i < |b| ==> coordSystem(b[i]) == CoordRZ {
      forall i | 0 <= i < |a| ensures coordSystem(a[i]) == CoordRZ {
        assert a[i] in b;
      }
    }
  }
}
