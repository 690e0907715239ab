/**
 * Request bodies as the validators see them: JSON values after the
 * validation pipe's class-transformer step, with numbers kept as exact
 * decimals (a JSON number literal is digits and a decimal point) and strings
 * as sequences of Unicode code points.
 */
module Json {
  import opened Wrappers

  function Pow10(n: nat): (r: nat)
    ensures r >= 1
    ensures n > 0 ==> r % 10 == 0
  {
    if n == 0 then 1 else 10 * Pow10(n - 1)
  }

  /** The number `digits / 10^exponent`. */
  datatype Decimal = Decimal(digits: int, exponent: nat) {

    predicate IsInteger() {
      digits % Pow10(exponent) == 0
    }

    /** At most `places` digits after the decimal point, once trailing zeros are dropped. */
    predicate HasAtMostPlaces(places: nat) {
      (digits * Pow10(places)) % Pow10(exponent) == 0
    }

    predicate AtLeastZero() {
      digits >= 0
    }

    /** The value multiplied by 10^places, which is a whole number when the places fit. */
    function Scaled(places: nat): (r: int)
      requires HasAtMostPlaces(places)
      ensures r * Pow10(exponent) == digits * Pow10(places)
      ensures AtLeastZero() <==> r >= 0
    {
      var q := digits * Pow10(places) / Pow10(exponent);
      assert q * Pow10(exponent) == digits * Pow10(places);
      q
    }
  }

  datatype Value =
    | Null
    | Bool(b: bool)
    | Number(n: Decimal)
    | Str(s: string)
    | Composite   // an array or an object

  /** A property of a request body: `None` when the property is absent (undefined). */
  type Field = Option<Value>
}
