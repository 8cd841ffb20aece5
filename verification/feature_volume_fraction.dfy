/**
 * FeatureVolumeFraction: a postprocessor that reports the fraction of the
 * mesh volume occupied by the features (grains, bubbles) found by the flood
 * count it extends.
 */
module FeatureVolume {
  import opened Wrappers
  import opened RealArith

  /** Whether the flood count it extends floods elements or nodes (`flood_entity_type`). */
  datatype FloodEntityType = Elemental | Nodal

  datatype ConfigError =
    | MissingEquilibriumFraction  // an Avrami file is given but no equilibrium fraction
    | NotElemental                // volumes are only computed when flooding elements

  /** The default of the `equil_fraction` parameter. */
  const DefaultEquilFraction: real := -1.0

  /** The equilibrium fraction the object holds: the parameter if given, its default otherwise. */
  function EquilFraction(param: Option<real>): (f: real)
    ensures param.Some? ==> f == param.value
    ensures param.None? ==> f < 0.0
  {
    param.GetOr(DefaultEquilFraction)
  }

  /** The total of a list of volumes, accumulated front to back. */
  function Sum(volumes: seq<real>): real
  {
    if volumes == [] then 0.0 else Sum(volumes[..|volumes| - 1]) + volumes[|volumes| - 1]
  }

  /** The sum of a concatenation is the sum of the parts: the total does not depend on how the list is split. */
  lemma {:induction false} SumAppend(a: seq<real>, b: seq<real>)
    ensures Sum(a + b) == Sum(a) + Sum(b)
  {
    if b != [] {
      var last := |b| - 1;
      assert (a + b)[..|a + b| - 1] == a + b[..last];
      SumAppend(a, b[..last]);
    } else {
      assert a + b == a;
    }
  }

  /** Volumes that are all non-negative have a non-negative total, at least as large as each one. */
  lemma {:induction false} SumBounds(volumes: seq<real>)
    requires forall i :: 0 <= i < |volumes| ==> volumes[i] >= 0.0
    ensures Sum(volumes) >= 0.0
    ensures forall i :: 0 <= i < |volumes| ==> volumes[i] <= Sum(volumes)
  {
    if volumes != [] {
      var init := volumes[..|volumes| - 1];
      SumBounds(init);
      assert forall i :: 0 <= i < |init| ==> volumes[i] == init[i];
    }
  }

  /**
   * The check the constructor makes of its parameters: an Avrami analysis needs a
   * non-negative equilibrium fraction, and the flood must run over elements.
   */
  function CheckParameters(avramiFileGiven: bool, equilFraction: real, floodEntity: FloodEntityType): (r: Outcome<ConfigError>)
    ensures r == Pass <==> (!avramiFileGiven || equilFraction >= 0.0) && floodEntity == Elemental
    ensures avramiFileGiven && equilFraction < 0.0 ==> r == Fail(MissingEquilibriumFraction)
    ensures (!avramiFileGiven || equilFraction >= 0.0) && floodEntity != Elemental ==> r == Fail(NotElemental)
  {
    if avramiFileGiven && equilFraction < 0.0 then Fail(MissingEquilibriumFraction)
    else if floodEntity != Elemental then Fail(NotElemental)
    else Pass
  }

  /** Giving an Avrami file without an equilibrium fraction always fails, because the default is negative. */
  lemma AvramiFileNeedsEquilFraction(floodEntity: FloodEntityType)
    ensures CheckParameters(true, EquilFraction(None), floodEntity) == Fail(MissingEquilibriumFraction)
  {
  }

  /**
   * With non-negative feature volumes the fraction over a positive mesh volume
   * is non-negative; when their total also fits in the mesh volume it is at most 1.
   */
  lemma FractionInUnitInterval(volumes: seq<real>, meshVolume: real)
    requires forall i :: 0 <= i < |volumes| ==> volumes[i] >= 0.0
    requires 0.0 < meshVolume
    ensures 0.0 <= Sum(volumes) / meshVolume
    ensures Sum(volumes) <= meshVolume ==> Sum(volumes) / meshVolume <= 1.0
  {
    SumBounds(volumes);
    if Sum(volumes) <= meshVolume {
      DivAtMostOne(Sum(volumes), meshVolume);
    } else {
      MulNonNegative(Sum(volumes), 1.0 / meshVolume);
      assert Sum(volumes) / meshVolume == Sum(volumes) * (1.0 / meshVolume);
    }
  }

  class FeatureVolumeFraction {
    /** The value of the `mesh_volume` postprocessor, read when the fraction is computed. */
    var meshVolume: real
    const avramiFile: Option<string>
    const equilFraction: real
    /** The feature volumes the flood count found in its last pass. */
    var allFeatureVolumes: seq<real>
    /** The fraction this postprocessor reports. */
    var volumeFraction: real

    constructor (meshVolume: real, avramiFile: Option<string>, equilFraction: real, floodEntity: FloodEntityType)
      requires CheckParameters(avramiFile.Some?, equilFraction, floodEntity) == Pass
      ensures this.meshVolume == meshVolume && this.avramiFile == avramiFile && this.equilFraction == equilFraction
      ensures allFeatureVolumes == [] && volumeFraction == 0.0
    {
      this.meshVolume := meshVolume;
      this.avramiFile := avramiFile;
      this.equilFraction := equilFraction;
      allFeatureVolumes := [];
      volumeFraction := 0.0;
    }

    /**
     * Construction from the object's parameters: fails with the first violated
     * check, otherwise yields an object holding them.
     */
    static method Create(meshVolume: real, avramiFile: Option<string>, equilFractionParam: Option<real>, floodEntity: FloodEntityType)
      returns (r: Result<FeatureVolumeFraction, ConfigError>)
      ensures r.Failure? <==> CheckParameters(avramiFile.Some?, EquilFraction(equilFractionParam), floodEntity) != Pass
      ensures r.Failure? ==> Fail(r.error) == CheckParameters(avramiFile.Some?, EquilFraction(equilFractionParam), floodEntity)
      ensures r.Success? ==> fresh(r.value) && r.value.meshVolume == meshVolume && r.value.avramiFile == avramiFile
      ensures r.Success? ==> r.value.equilFraction == EquilFraction(equilFractionParam) && r.value.allFeatureVolumes == []
    {
      var equil := EquilFraction(equilFractionParam);
      var check := CheckParameters(avramiFile.Some?, equil, floodEntity);
      if check.Fail? {
        return Failure(check.error);
      }
      var pp := new FeatureVolumeFraction(meshVolume, avramiFile, equil, floodEntity);
      r := Success(pp);
    }

    /** Sums the feature volumes and stores their fraction of the mesh volume. */
    method CalculateBubbleFraction()
      requires meshVolume != 0.0
      modifies this`volumeFraction
      ensures volumeFraction == Sum(allFeatureVolumes) / meshVolume
    {
      var volume := 0.0;
      var n := 0;
      while n < |allFeatureVolumes|
        invariant 0 <= n <= |allFeatureVolumes|
        invariant volume == Sum(allFeatureVolumes[..n])
      {
        assert allFeatureVolumes[..n + 1] == allFeatureVolumes[..n] + [allFeatureVolumes[n]];
        SumAppend(allFeatureVolumes[..n], [allFeatureVolumes[n]]);
        volume := volume + allFeatureVolumes[n];
        n := n + 1;
      }
      assert allFeatureVolumes[..n] == allFeatureVolumes;
      volumeFraction := volume / meshVolume;
    }

    /**
     * End of a pass: takes the feature volumes the flood count produced (which
     * must not be empty) and recomputes the fraction.
     */
    method Finalize(featureVolumes: seq<real>)
      requires featureVolumes != []
      requires meshVolume != 0.0
      modifies this`allFeatureVolumes, this`volumeFraction
      ensures allFeatureVolumes == featureVolumes
      ensures volumeFraction == Sum(featureVolumes) / meshVolume
      ensures (forall i :: 0 <= i < |featureVolumes| ==> featureVolumes[i] >= 0.0) && meshVolume > 0.0 ==>
                volumeFraction >= 0.0
    {
      allFeatureVolumes := featureVolumes;
      CalculateBubbleFraction();
      if (forall i :: 0 <= i < |featureVolumes| ==> featureVolumes[i] >= 0.0) && meshVolume > 0.0 {
        FractionInUnitInterval(featureVolumes, meshVolume);
      }
    }

    /** The reported value: the fraction last computed, with nothing changed. */
    method GetValue() returns (v: real)
      ensures v == volumeFraction
    {
      v := volumeFraction;
    }
  }
}
