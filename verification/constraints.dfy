/**
 * The class-validator decorators the DTOs use, as predicates on one property
 * of a request body. Each is false on an absent property unless stated.
 */
module Constraints {
  import opened Wrappers
  import opened Json

  /** `@IsOptional()`: the other constraints are skipped for an absent or null property. */
  predicate Skipped(v: Field) {
    v.None? || v.value.Null?
  }

  /** `@IsString()`. */
  predicate IsString(v: Field) {
    v.Some? && v.value.Str?
  }

  /** `@IsNotEmpty()`: neither absent, null nor the empty string. */
  predicate IsNotEmpty(v: Field) {
    v.Some? && !v.value.Null? && v.value != Str("")
  }

  /** U+FE0E and U+FE0F, the variation selectors validator.js leaves out of a string's length. */
  predicate IsPresentationSelector(c: char) {
    c == '\U{FE0E}' || c == '\U{FE0F}'
  }

  /**
   * The length validator.js's `isLength` measures: code points, of which the
   * two presentation selectors do not count.
   */
  function MeasuredLength(s: string): (n: nat)
    ensures n <= |s|
    ensures n == |s| <==> forall i :: 0 <= i < |s| ==> !IsPresentationSelector(s[i])
  {
    if s == [] then 0
    else MeasuredLength(s[..|s| - 1]) + (if IsPresentationSelector(s[|s| - 1]) then 0 else 1)
  }

  /** `@MaxLength(n)`: a string whose measured length is at most `n`. */
  predicate MaxLength(v: Field, n: nat) {
    IsString(v) && MeasuredLength(v.value.s) <= n
  }

  /** `@MinLength(n)`: a string whose measured length is at least `n`. */
  predicate MinLength(v: Field, n: nat) {
    IsString(v) && MeasuredLength(v.value.s) >= n
  }

  /** `@IsIn(allowed)` (and `@IsEnum` of a string enum, whose values are `allowed`). */
  predicate IsIn(v: Field, allowed: seq<string>) {
    v.Some? && v.value.Str? && v.value.s in allowed
  }

  /** `@IsNumber({ maxDecimalPlaces: places })`. */
  predicate IsNumber(v: Field, places: nat) {
    v.Some? && v.value.Number? && v.value.n.HasAtMostPlaces(places)
  }

  /** `@IsInt()`. */
  predicate IsInt(v: Field) {
    v.Some? && v.value.Number? && v.value.n.IsInteger()
  }

  /** `@Min(0)`. */
  predicate MinZero(v: Field) {
    v.Some? && v.value.Number? && v.value.n.AtLeastZero()
  }

  /** The string of an optional string property; null reads as absent. */
  function OptionalString(v: Field): (r: Option<string>)
    requires Skipped(v) || IsString(v)
    ensures r.None? <==> Skipped(v)
    ensures r.Some? ==> v == Some(Str(r.value))
  {
    if Skipped(v) then None else Some(v.value.s)
  }

  /** The property that carries an optional string: absent for `None`. */
  function StringField(s: Option<string>): (v: Field)
    ensures Skipped(v) || IsString(v)
    ensures OptionalString(v) == s
  {
    if s.None? then None else Some(Str(s.value))
  }

  /** Reading an optional string property and writing it back gives the property, unless it was null. */
  lemma StringFieldOfOptionalString(v: Field)
    requires IsString(v) || v.None?
    ensures StringField(OptionalString(v)) == v
  {
  }
}
