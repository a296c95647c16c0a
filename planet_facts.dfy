/**
 * Properties of the `Planet` catalogue: the IPL encoding is a bijection between the 21
 * bodies and the numbers 0..20, the classification predicates pick out disjoint groups,
 * and the display strings follow the "symbol, space, name" pattern with one exception.
 */
module PlanetFacts {
  import opened Wrappers
  import opened Planets

  /** Encoding then decoding gives back the body. */
  lemma DecodeEncode(p: Planet)
    ensures FromRaw(RawValue(p)) == Some(p)
  {
  }

  /** Decoding an integer succeeds exactly on 0..20, and then encoding gives the integer back. */
  lemma EncodeDecode(c: int32)
    ensures FromRaw(c).Some? <==> 0 <= c <= 20
    ensures FromRaw(c).Some? ==> RawValue(FromRaw(c).value) == c
    ensures FromRaw(c).None? <==> c < 0 || 20 < c
  {
  }

  /** No two bodies share an IPL number. */
  lemma RawValueInjective(p: Planet, q: Planet)
    ensures RawValue(p) == RawValue(q) <==> p == q
  {
  }

  /** The decoder is a lookup in the catalogue by IPL number. */
  lemma FromRawIsTableLookup(c: int32)
    ensures FromRaw(c) == if 0 <= c <= MaxRaw then Some(AllPlanets[c]) else None
  {
  }

  /** The catalogue lists every body once, at the position given by its IPL number. */
  lemma CatalogueIsComplete()
    ensures |AllPlanets| == MaxRaw as int + 1
    ensures forall p: Planet :: p in AllPlanets
    ensures forall i :: 0 <= i < |AllPlanets| ==> RawValue(AllPlanets[i]) as int == i
    ensures forall i, j :: 0 <= i < j < |AllPlanets| ==> AllPlanets[i] != AllPlanets[j]
  {
    forall p: Planet ensures p in AllPlanets {
      assert AllPlanets[RawValue(p)] == p;
    }
    forall i | 0 <= i < |AllPlanets| ensures RawValue(AllPlanets[i]) as int == i {
      var c := i as int32;
      assert FromRaw(c) == Some(AllPlanets[i]) by { FromRawIsTableLookup(c); }
    }
  }

  /** The `CelestialBody` identifier is the IPL number. */
  lemma ValueIsRawValue(p: Planet)
    ensures Value(p) == RawValue(p)
    ensures 0 <= Value(p) <= 20
  {
  }

  /** `isTraditionalPlanet` holds exactly for the ten bodies numbered 0..9. */
  lemma TraditionalPlanetsAreSunToPluto(p: Planet)
    ensures IsTraditionalPlanet(p) <==> RawValue(p) <= 9
    ensures IsTraditionalPlanet(p) <==>
      p in {Sun, Moon, Mercury, Venus, Mars, Jupiter, Saturn, Uranus, Neptune, Pluto}
  {
  }

  /** The number of classification predicates a body satisfies. */
  function Tags(p: Planet): nat
  {
    (if IsTraditionalPlanet(p) then 1 else 0) +
    (if IsLunarNode(p) then 1 else 0) +
    (if IsLunarApogee(p) then 1 else 0) +
    (if IsAsteroid(p) then 1 else 0) +
    (if IsCentaur(p) then 1 else 0)
  }

  /** Every body except the Earth is in exactly one group; the Earth is in none. */
  lemma ClassificationIsExclusive(p: Planet)
    ensures Tags(p) == if p == Earth then 0 else 1
  {
  }

  /** The five predicates are pairwise disjoint, and the Earth satisfies none of them. */
  lemma ClassificationsDisjoint(p: Planet)
    ensures !(IsTraditionalPlanet(p) && IsLunarNode(p))
    ensures !(IsTraditionalPlanet(p) && IsLunarApogee(p))
    ensures !(IsTraditionalPlanet(p) && IsAsteroid(p))
    ensures !(IsTraditionalPlanet(p) && IsCentaur(p))
    ensures !(IsLunarNode(p) && IsLunarApogee(p))
    ensures !(IsLunarNode(p) && IsAsteroid(p))
    ensures !(IsLunarNode(p) && IsCentaur(p))
    ensures !(IsLunarApogee(p) && IsAsteroid(p))
    ensures !(IsLunarApogee(p) && IsCentaur(p))
    ensures !(IsAsteroid(p) && IsCentaur(p))
    ensures p == Earth ==>
      !IsTraditionalPlanet(p) && !IsLunarNode(p) && !IsLunarApogee(p) && !IsAsteroid(p) && !IsCentaur(p)
  {
  }

  /** Pholus is the exception: its formatted name is the bare name, without its symbol. */
  lemma PholusFormattedWithoutSymbol()
    ensures Formatted(Pholus) == "Pholus"
    ensures !StartsWithSpaced(Formatted(Pholus), Symbol(Pholus))
    ensures forall p: Planet :: p != Pholus ==> Formatted(p) != "Pholus"
  {
  }

  /** Two bodies share a symbol exactly when both are lunar nodes or both are lunar apogees. */
  lemma SharedSymbols(p: Planet, q: Planet)
    ensures Symbol(p) == Symbol(q) <==>
      p == q || (IsLunarNode(p) && IsLunarNode(q)) || (IsLunarApogee(p) && IsLunarApogee(q))
  {
  }

  /** No two bodies share a formatted name. */
  lemma FormattedInjective(p: Planet, q: Planet)
    ensures Formatted(p) == Formatted(q) <==> p == q
  {
  }

  /** The worked examples: numbers at both ends, decoding, one apogee and one formatted name. */
  lemma Examples()
    ensures RawValue(Sun) == 0 && RawValue(Vesta) == 20
    ensures FromRaw(4) == Some(Mars)
    ensures FromRaw(-1) == None && FromRaw(21) == None && FromRaw(99) == None
    ensures IsLunarApogee(OscuApogee) && !IsLunarApogee(Sun)
    ensures Formatted(Mars) == Symbol(Mars) + " Mars"
  {
  }
}
