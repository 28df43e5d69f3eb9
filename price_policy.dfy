/** The price strategies a rental is charged under: the standard rate, and
    the student rate with twenty per cent off. Prices are exact reals; the
    Java code computes them in `double`. */
module PricePolicies {

  datatype PricePolicy = StandardPrice | StudentPrice

  /** The factor applied to base price times hours: 1.0 for the standard
      rate, 0.8 for the student rate. */
  function Factor(p: PricePolicy): (f: real)
    ensures 0.0 < f <= 1.0
  {
    match p
    case StandardPrice => 1.0
    case StudentPrice => 0.8
  }

  /** `calculatePrice(basePrice, hours)`. */
  function Price(p: PricePolicy, basePrice: real, hours: real): (r: real)
    ensures hours == 0.0 || basePrice == 0.0 ==> r == 0.0
    ensures basePrice >= 0.0 && hours >= 0.0 ==> 0.0 <= r <= basePrice * hours
    ensures p == StandardPrice ==> r == basePrice * hours
  {
    basePrice * hours * Factor(p)
  }

  /** `getPolicyName`. */
  function Name(p: PricePolicy): (r: string)
    ensures r != []
    ensures r == "Standard" <==> p == StandardPrice
    ensures p == StudentPrice ==> r == "Student (20% rabatt)"
  {
    match p
    case StandardPrice => "Standard"
    case StudentPrice => "Student (20% rabatt)"
  }

  /** The student price is four fifths of the standard price, whatever the
      base price and duration. */
  lemma StudentIsFourFifths(basePrice: real, hours: real)
    ensures Price(StudentPrice, basePrice, hours) == Price(StandardPrice, basePrice, hours) * 4.0 / 5.0
  {
  }

  /** For a non-negative base price, a longer rental never costs less. */
  lemma PriceMonotoneInHours(p: PricePolicy, basePrice: real, h1: real, h2: real)
    requires basePrice >= 0.0 && h1 <= h2
    ensures Price(p, basePrice, h1) <= Price(p, basePrice, h2)
  {
    assert basePrice * h2 - basePrice * h1 == basePrice * (h2 - h1);
  }

  /** Prices add up over consecutive periods: charging two parts of a
      rental separately costs the same as charging the whole. */
  lemma PriceAdditive(p: PricePolicy, basePrice: real, h1: real, h2: real)
    ensures Price(p, basePrice, h1 + h2) == Price(p, basePrice, h1) + Price(p, basePrice, h2)
  {
    assert basePrice * (h1 + h2) == basePrice * h1 + basePrice * h2;
  }
}
