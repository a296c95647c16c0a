# SwissEphemeris `Planet` catalogue, modelled in Dafny

The Swift package `SwissEphemeris` names the celestial bodies it can ask the Swiss Ephemeris
engine about with the enumeration `Planet` (`Sources/SwissEphemeris/Planet.swift`): 21 bodies,
each with an `Int32` raw value equal to the engine's IPL body number (sun = 0 … vesta = 20), a
display symbol, a formatted name, five classification predicates, and the `value` identifier of
its `CelestialBody` conformance. Swift also synthesises the failable initialiser
`Planet(rawValue:)`, the inverse of the encoding.

The model is pure, as the source is:

- `wrappers.dfy`, module `Wrappers`: `Option`, standing for Swift's optional result.
- `planet.dfy`, module `Planets`: `newtype int32`, `datatype Planet` with one constructor per
  case, the catalogue `AllPlanets` (every body once, by IPL number, the reference table for the
  encoding), `RawValue`, `FromRaw` (the synthesised initialiser), `Value`, `Symbol`, `Formatted`
  and the five predicates. Every symbol and formatted string is the source's literal, code
  point for code point, including its mis-decoded characters.
- `planet_facts.dfy`, module `PlanetFacts`: the properties that relate several operations.

## Model

| member | source | states |
|---|---|---|
| `Planets.RawValue` | Sources/SwissEphemeris/Planet.swift:12-33 | every raw value lies in 0..20 and the body sits at that position of the IPL-ordered catalogue |
| `Planets.FromRaw` | Sources/SwissEphemeris/Planet.swift:12-33 | decoding succeeds exactly for 0..20, and the decoded body's raw value is the input |
| `Planets.Value` | Sources/SwissEphemeris/Planet.swift:159-161 | the `CelestialBody` identifier is the raw value and decodes back to the body |
| `Planets.Symbol` | Sources/SwissEphemeris/Planet.swift:36-80 | every symbol is non-empty and contains no space |
| `Planets.Formatted` | Sources/SwissEphemeris/Planet.swift:84-129 | the formatted name starts with the symbol and one space, followed by a non-empty name, exactly for the bodies other than Pholus |
| `Planets.IsTraditionalPlanet` | Sources/SwissEphemeris/Planet.swift:131-134 | the predicate (raw value at most 9) holds exactly for Sun, Moon, Mercury, Venus, Mars, Jupiter, Saturn, Uranus, Neptune and Pluto |
| `Planets.IsLunarNode` | Sources/SwissEphemeris/Planet.swift:136-139 | the predicate (mean or true node) holds exactly for raw values 10..11 |
| `Planets.IsLunarApogee` | Sources/SwissEphemeris/Planet.swift:141-144 | the predicate (mean or osculating apogee) holds exactly for raw values 12..13 |
| `Planets.IsAsteroid` | Sources/SwissEphemeris/Planet.swift:146-149 | the predicate (Ceres, Pallas, Juno, Vesta) holds exactly for raw values 17..20 |
| `Planets.IsCentaur` | Sources/SwissEphemeris/Planet.swift:151-154 | the predicate (Chiron, Pholus) holds exactly for raw values 15..16 |
| `PlanetFacts.DecodeEncode` | Sources/SwissEphemeris/Planet.swift:12-33 | `Planet(rawValue: p.rawValue) == p` for every body |
| `PlanetFacts.EncodeDecode` | Sources/SwissEphemeris/Planet.swift:12-33 | for every `Int32`, decoding succeeds iff it lies in 0..20, then re-encodes to it, and yields nothing otherwise |
| `PlanetFacts.RawValueInjective` | Sources/SwissEphemeris/Planet.swift:12-33 | two bodies have the same raw value iff they are the same body |
| `PlanetFacts.FromRawIsTableLookup` | Sources/SwissEphemeris/Planet.swift:12-33 | the decoder is the lookup of the IPL-ordered catalogue at the given number, absent outside 0..20 |
| `PlanetFacts.CatalogueIsComplete` | Sources/SwissEphemeris/Planet.swift:12-33 | there are exactly 21 bodies, all distinct, each at the index given by its raw value |
| `PlanetFacts.ValueIsRawValue` | Sources/SwissEphemeris/Planet.swift:159-161 | `value == rawValue`, within 0..20, for every body |
| `PlanetFacts.TraditionalPlanetsAreSunToPluto` | Sources/SwissEphemeris/Planet.swift:132-134 | `isTraditionalPlanet` iff raw value at most 9 iff the body is one of the ten Sun…Pluto |
| `PlanetFacts.ClassificationIsExclusive` | Sources/SwissEphemeris/Planet.swift:132-154 | every body other than the Earth satisfies exactly one of the five predicates; the Earth satisfies none |
| `PlanetFacts.ClassificationsDisjoint` | Sources/SwissEphemeris/Planet.swift:132-154 | the five predicates are pairwise disjoint and all false for the Earth |
| `PlanetFacts.PholusFormattedWithoutSymbol` | Sources/SwissEphemeris/Planet.swift:118-119 | Pholus's formatted name is exactly "Pholus", without its symbol prefix, and no other body has that formatted name |
| `PlanetFacts.SharedSymbols` | Sources/SwissEphemeris/Planet.swift:58-65 | two bodies share a symbol iff they are equal, both lunar nodes, or both lunar apogees |
| `PlanetFacts.FormattedInjective` | Sources/SwissEphemeris/Planet.swift:84-129 | no two bodies share a formatted name |
| `PlanetFacts.Examples` | Sources/SwissEphemeris/Planet.swift:12-33 | sun is 0, vesta is 20, 4 decodes to mars, -1, 21 and 99 decode to nothing, the osculating apogee is an apogee and the sun is not, and Mars is formatted as its symbol followed by " Mars" |

## Left out

- The `CelestialBody` protocol itself is not part of this model; only the `value` that `Planet` provides is modelled.
- The ephemeris computations and the native Swiss Ephemeris routines that consume the IPL number: foreign code.
- Unicode semantics of the symbols (grapheme clusters, the variation selector of the Mars symbol, normalisation, rendering): strings are opaque sequences of code points.
- The synthesised `Equatable` and `Hashable` conformances beyond constructor equality, and the `Foundation` import.
- The missing symbol in Pholus's formatted name is modelled as written, not corrected.
