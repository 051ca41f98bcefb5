/**
 * Trade-price labels: Map::PriceLevel maps a commodity's price onto one of five
 * labels, by where the price falls between the commodity's low and high price.
 */
module Prices {
  import opened Records

  /** A standard commodity of the trade table: its name and its low and high price. */
  datatype Commodity = Commodity(name: string, low: int, high: int)

  /** The five labels, cheapest first. */
  const Levels: seq<string> := ["(very low)", "(low)", "(medium)", "(high)", "(very high)"]

  /** C++ `int` division: the quotient truncated toward zero (Dafny's `/` is Euclidean). */
  function TruncDiv(a: int, b: int): (q: int)
    requires b != 0
    ensures a >= 0 && b > 0 ==> q == a / b
    ensures Abs(q) == Abs(a) / Abs(b)
    ensures q > 0 ==> (a > 0 <==> b > 0)
    ensures q < 0 ==> (a > 0 <==> b < 0)
  {
    NatDivNonnegative(Abs(a), Abs(b));
    if a >= 0 then (if b > 0 then a / b else -(a / -b))
    else (if b > 0 then -(-a / b) else -a / -b)
  }

  function Abs(x: int): int
  {
    if x < 0 then -x else x
  }

  lemma NatDivNonnegative(x: int, y: int)
    requires x >= 0 && y > 0
    ensures x / y >= 0
  {
  }

  /** Euclidean division of naturals leaves a remainder in [0, y). */
  lemma NatRemainder(x: int, y: int)
    requires x >= 0 && y > 0
    ensures 0 <= x - (x / y) * y < y
  {
    assert x == y * (x / y) + x % y;
  }

  /**
   * C++ division rounds toward zero: the remainder `a - q * b` has the sign of
   * `a` (or is zero) and is smaller in size than `b`.
   */
  lemma TruncDivRemainder(a: int, b: int)
    requires b != 0
    ensures var q := TruncDiv(a, b);
            && (a >= 0 ==> 0 <= a - q * b < Abs(b))
            && (a < 0 ==> -Abs(b) < a - q * b <= 0)
            && TruncDiv(-a, b) == -q && TruncDiv(a, -b) == -q
  {
    var x: int, y: int := Abs(a), Abs(b);
    NatRemainder(x, y);
    var u: int := x / y;
    var q := TruncDiv(a, b);
    if a >= 0 && b > 0 {
      assert q * b == u * y;
    } else if a >= 0 {
      assert q == -u && b == -y;
      assert q * b == u * y;
    } else if b > 0 {
      assert q == -u && a == -x;
      assert q * b == -(u * y);
    } else {
      assert q == u && a == -x && b == -y;
      assert q * b == -(u * y);
    }
  }

  /** `max(0, min(4, k))`. */
  function Clamp(k: int): (r: nat)
    ensures r <= 4
    ensures 0 <= k <= 4 ==> r == k
    ensures k <= 0 ==> r == 0
    ensures k >= 4 ==> r == 4
  {
    if k < 0 then 0 else if k > 4 then 4 else k
  }

  /** The index into Levels for `price` of commodity `c`; `c.high == c.low` would divide by zero. */
  function LevelIndex(c: Commodity, price: int): nat
    requires c.high != c.low
  {
    Clamp(TruncDiv((price - c.low) * 5, c.high - c.low))
  }

  /** The position of the first commodity named `name` in the table, if there is one. */
  function Lookup(commodities: seq<Commodity>, name: string): (r: Option<nat>)
    ensures r.Some? ==> r.value < |commodities| && commodities[r.value].name == name
    ensures r.Some? ==> forall j :: 0 <= j < r.value ==> commodities[j].name != name
    ensures r.None? <==> forall j :: 0 <= j < |commodities| ==> commodities[j].name != name
  {
    if commodities == [] then None
    else if commodities[0].name == name then Some(0)
    else match Lookup(commodities[1..], name)
      case None => None
      case Some(i) => Some(i + 1)
  }

  /** The commodity PriceLevel would use has a non-empty price range (else it divides by zero). */
  predicate HasPriceRange(commodities: seq<Commodity>, name: string)
  {
    var k := Lookup(commodities, name);
    k.None? || commodities[k.value].high != commodities[k.value].low
  }

  /**
   * Map::PriceLevel: "" for a commodity not in the table, otherwise the label
   * of the first commodity of that name, its index clamped into [0, 4].
   */
  function PriceLevel(commodities: seq<Commodity>, commodity: string, price: int): (r: string)
    requires HasPriceRange(commodities, commodity)
    ensures r == "" <==> forall j :: 0 <= j < |commodities| ==> commodities[j].name != commodity
    ensures r != "" ==> r in Levels
    ensures forall i :: 0 <= i < |commodities| && commodities[i].name == commodity &&
                        (forall j :: 0 <= j < i ==> commodities[j].name != commodity) ==>
                          commodities[i].high != commodities[i].low &&
                          r == Levels[LevelIndex(commodities[i], price)]
  {
    if commodities == [] then ""
    else if commodities[0].name == commodity then Levels[LevelIndex(commodities[0], price)]
    else PriceLevel(commodities[1..], commodity, price)
  }

  /** The position of a label `tag` in Levels, -1 for anything else. */
  function Rank(tag: string): int
  {
    if tag == Levels[0] then 0
    else if tag == Levels[1] then 1
    else if tag == Levels[2] then 2
    else if tag == Levels[3] then 3
    else if tag == Levels[4] then 4
    else -1
  }

  /** Euclidean division by a positive number is monotonic on non-negative dividends. */
  lemma DivMonotone(x: int, y: int, b: int)
    requires 0 <= x <= y && b > 0
    ensures x / b <= y / b
  {
    var qx, rx, qy, ry := x / b, x % b, y / b, y % b;
    assert x == b * qx + rx && 0 <= rx < b;
    assert y == b * qy + ry && 0 <= ry < b;
    if qx > qy {
      MulAtLeast(b, qx - qy);
    }
  }

  lemma MulAtLeast(b: int, d: int)
    requires b > 0 && d >= 1
    ensures b * d >= b
  {
  }

  /** Truncating division by a positive number is monotonic in the dividend. */
  lemma TruncDivMonotone(x: int, y: int, b: int)
    requires x <= y && b > 0
    ensures TruncDiv(x, b) <= TruncDiv(y, b)
  {
    if 0 <= x {
      DivMonotone(x, y, b);
    } else if y < 0 {
      DivMonotone(-y, -x, b);
    } else {
      DivMonotone(0, -x, b);
      DivMonotone(0, y, b);
    }
  }

  /** With high > low, a higher price never gets a cheaper label. */
  lemma PriceLevelMonotonic(commodities: seq<Commodity>, commodity: string, p1: int, p2: int)
    requires Lookup(commodities, commodity).Some?
    requires var c := commodities[Lookup(commodities, commodity).value]; c.high > c.low
    requires p1 <= p2
    ensures Rank(PriceLevel(commodities, commodity, p1)) <= Rank(PriceLevel(commodities, commodity, p2))
  {
    var i := Lookup(commodities, commodity).value;
    var c := commodities[i];
    assert (p1 - c.low) * 5 <= (p2 - c.low) * 5;
    TruncDivMonotone((p1 - c.low) * 5, (p2 - c.low) * 5, c.high - c.low);
    assert LevelIndex(c, p1) <= LevelIndex(c, p2);
  }

  /** With high > low for the first commodity of that name, a price at or below its low price is "(very low)". */
  lemma PriceLevelAtOrBelowLow(commodities: seq<Commodity>, commodity: string, price: int)
    requires Lookup(commodities, commodity).Some?
    requires var c := commodities[Lookup(commodities, commodity).value]; c.high > c.low && price <= c.low
    ensures PriceLevel(commodities, commodity, price) == "(very low)"
  {
    var c := commodities[Lookup(commodities, commodity).value];
    assert (price - c.low) * 5 <= 0;
    TruncDivMonotone((price - c.low) * 5, 0, c.high - c.low);
    assert LevelIndex(c, price) == 0;
  }

  /** With high > low for the first commodity of that name, a price at or above its high price is "(very high)". */
  lemma PriceLevelAtOrAboveHigh(commodities: seq<Commodity>, commodity: string, price: int)
    requires Lookup(commodities, commodity).Some?
    requires var c := commodities[Lookup(commodities, commodity).value]; c.high > c.low && price >= c.high
    ensures PriceLevel(commodities, commodity, price) == "(very high)"
  {
    var c := commodities[Lookup(commodities, commodity).value];
    var span := c.high - c.low;
    assert (price - c.low) * 5 >= span * 5;
    TruncDivMonotone(span * 5, (price - c.low) * 5, span);
    assert TruncDiv(span * 5, span) == 5;
    assert LevelIndex(c, price) == 4;
  }

  /** With high > low, Euclidean division gives the same label once clamped. */
  lemma EuclideanAgreesAfterClamp(c: Commodity, price: int)
    requires c.high > c.low
    ensures LevelIndex(c, price) == Clamp((price - c.low) * 5 / (c.high - c.low))
  {
    var a, b := (price - c.low) * 5, c.high - c.low;
    if a < 0 {
      assert a / b < 0;
    }
  }

  /** With high < low the two divisions part ways: truncation picks "(medium)" where Euclid says 3. */
  lemma InvertedRangeNeedsTruncation()
    ensures PriceLevel([Commodity("Food", 10, 0)], "Food", 5) == "(medium)"
    ensures Clamp((5 - 10) * 5 / (0 - 10)) == 3
  {
  }
}
