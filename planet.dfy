/**
 * The catalogue of celestial bodies known to the Swiss Ephemeris bindings: the `Planet`
 * enumeration, its `Int32` raw value (the ephemeris engine's IPL body number), the
 * failable decoder Swift synthesises from the raw values, the display symbol and the
 * formatted name of every body, the five classification predicates, and the `value`
 * identifier the enumeration exposes as a `CelestialBody`.
 */
module Planets {
  import opened Wrappers

  /** Swift's `Int32`: the raw-value type of the enumeration. */
  newtype int32 = x: int | -0x8000_0000 <= x < 0x8000_0000

  /** The 21 celestial bodies, declared in IPL order. */
  datatype Planet =
    | Sun | Moon | Mercury | Venus | Mars | Jupiter | Saturn | Uranus | Neptune | Pluto
    | MeanNode    // mean lunar node
    | TrueNode    // true lunar node
    | MeanApogee  // mean lunar apogee (Lilith)
    | OscuApogee  // osculating lunar apogee
    | Earth | Chiron | Pholus | Ceres | Pallas | Juno | Vesta

  /** Every body exactly once, listed by IPL number: the reference table for the encoding. */
  const AllPlanets: seq<Planet> :=
    [ Sun, Moon, Mercury, Venus, Mars, Jupiter, Saturn, Uranus, Neptune, Pluto,
      MeanNode, TrueNode, MeanApogee, OscuApogee, Earth, Chiron, Pholus,
      Ceres, Pallas, Juno, Vesta ]

  /** The largest IPL number in use (vesta). */
  const MaxRaw: int32 := 20

  /** The raw value of a body: its IPL number. */
  function RawValue(p: Planet): (c: int32)
    ensures 0 <= c <= MaxRaw
    ensures AllPlanets[c] == p
  {
    match p
    case Sun => 0
    case Moon => 1
    case Mercury => 2
    case Venus => 3
    case Mars => 4
    case Jupiter => 5
    case Saturn => 6
    case Uranus => 7
    case Neptune => 8
    case Pluto => 9
    case MeanNode => 10
    case TrueNode => 11
    case MeanApogee => 12
    case OscuApogee => 13
    case Earth => 14
    case Chiron => 15
    case Pholus => 16
    case Ceres => 17
    case Pallas => 18
    case Juno => 19
    case Vesta => 20
  }

  /**
   * The synthesised `init?(rawValue:)`: the body whose IPL number is `c`, or nothing when
   * no case declares that raw value.
   */
  function FromRaw(c: int32): (r: Option<Planet>)
    ensures r.Some? <==> 0 <= c <= MaxRaw
    ensures r.Some? ==> RawValue(r.value) == c
  {
    match c
    case 0 => Some(Sun)
    case 1 => Some(Moon)
    case 2 => Some(Mercury)
    case 3 => Some(Venus)
    case 4 => Some(Mars)
    case 5 => Some(Jupiter)
    case 6 => Some(Saturn)
    case 7 => Some(Uranus)
    case 8 => Some(Neptune)
    case 9 => Some(Pluto)
    case 10 => Some(MeanNode)
    case 11 => Some(TrueNode)
    case 12 => Some(MeanApogee)
    case 13 => Some(OscuApogee)
    case 14 => Some(Earth)
    case 15 => Some(Chiron)
    case 16 => Some(Pholus)
    case 17 => Some(Ceres)
    case 18 => Some(Pallas)
    case 19 => Some(Juno)
    case 20 => Some(Vesta)
    case _ => None
  }

  /** The `value` of the `CelestialBody` conformance: the identifier handed to the ephemeris engine. */
  function Value(p: Planet): (v: int32)
    ensures v == RawValue(p)
    ensures FromRaw(v) == Some(p)
  {
    RawValue(p)
  }

  /**
   * The symbol commonly associated with the body, as the literal the source returns. It is
   * never empty and holds no space, so it ends where a formatted name's first space is.
   */
  function Symbol(p: Planet): (s: string)
    ensures s != [] && ' ' !in s
  {
    match p
    case Sun => "â˜‰"
    case Moon => "â˜¾"
    case Mercury => "â˜¿"
    case Venus => "â™€"
    case Mars => "â™‚ï¸"
    case Jupiter => "â™ƒ"
    case Saturn => "â™„"
    case Uranus => "â™…"
    case Neptune => "â™†"
    case Pluto => "â™‡"
    case MeanNode => "â˜Š"
    case TrueNode => "â˜Š"
    case MeanApogee => "âš¸"
    case OscuApogee => "âš¸"
    case Earth => "ğŸœ¨"
    case Chiron => "âš·"
    case Pholus => "â¯›"
    case Ceres => "âš³"
    case Pallas => "âš´"
    case Juno => "âšµ"
    case Vesta => "âš¶"
  }

  /** `s` begins with `prefix` followed by one space. */
  predicate StartsWithSpaced(s: string, prefix: string)
  {
    |prefix| < |s| && s[..|prefix|] == prefix && s[|prefix|] == ' '
  }

  /**
   * The name of the body formatted with its symbol, as the literal the source returns:
   * the symbol, one space and a non-empty name for every body except Pholus, whose
   * formatted name carries no symbol.
   */
  function Formatted(p: Planet): (r: string)
    ensures StartsWithSpaced(r, Symbol(p)) <==> p != Pholus
    ensures p != Pholus ==> |Symbol(p)| + 1 < |r|
  {
    match p
    case Sun => "â˜‰ Sun"
    case Moon => "â˜¾ Moon"
    case Mercury => "â˜¿ Mercury"
    case Venus => "â™€ Venus"
    case Mars => "â™‚ï¸ Mars"
    case Jupiter => "â™ƒ Jupiter"
    case Saturn => "â™„ Saturn"
    case Uranus => "â™… Uranus"
    case Neptune => "â™† Neptune"
    case Pluto => "â™‡ Pluto"
    case MeanNode => "â˜Š Mean Node"
    case TrueNode => "â˜Š True Node"
    case MeanApogee => "âš¸ Mean Apogee (Lilith)"
    case OscuApogee => "âš¸ Osculating Apogee"
    case Earth => "ğŸœ¨ Earth"
    case Chiron => "âš· Chiron"
    case Pholus => "Pholus"
    case Ceres => "âš³ Ceres"
    case Pallas => "âš´ Pallas"
    case Juno => "âšµ Juno"
    case Vesta => "âš¶ Vesta"
  }

  /** Sun through Pluto. */
  predicate IsTraditionalPlanet(p: Planet)
    ensures IsTraditionalPlanet(p) <==>
      p in {Sun, Moon, Mercury, Venus, Mars, Jupiter, Saturn, Uranus, Neptune, Pluto}
  {
    RawValue(p) <= 9
  }

  /** The mean or the true lunar node. */
  predicate IsLunarNode(p: Planet)
    ensures IsLunarNode(p) <==> 10 <= RawValue(p) <= 11
  {
    p == MeanNode || p == TrueNode
  }

  /** The mean or the osculating lunar apogee (Lilith). */
  predicate IsLunarApogee(p: Planet)
    ensures IsLunarApogee(p) <==> 12 <= RawValue(p) <= 13
  {
    p == MeanApogee || p == OscuApogee
  }

  /** Ceres, Pallas, Juno or Vesta. */
  predicate IsAsteroid(p: Planet)
    ensures IsAsteroid(p) <==> 17 <= RawValue(p) <= 20
  {
    p in [Ceres, Pallas, Juno, Vesta]
  }

  /** Chiron or Pholus. */
  predicate IsCentaur(p: Planet)
    ensures IsCentaur(p) <==> 15 <= RawValue(p) <= 16
  {
    p in [Chiron, Pholus]
  }
}
