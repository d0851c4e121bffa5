/** The integer field of a node input: a value kept between a minimum and a
    maximum by the field's handlers (reset, typed entry, the two step
    buttons) and written unclamped by `setValue`. */
module InputNumbers {

  /** A JavaScript number as this field sees it: an integer, or `NaN`, which
      is what `parseInt` yields for text without leading digits. */
  datatype Number = Num(v: int) | NaN

  /** `Math.max` on two numbers: `NaN` when either is `NaN`. */
  function JsMax(a: Number, b: Number): (r: Number)
    ensures r.NaN? <==> a.NaN? || b.NaN?
    ensures r.Num? ==> r.v >= a.v && r.v >= b.v && (r.v == a.v || r.v == b.v)
  {
    if a.NaN? || b.NaN? then NaN else if a.v >= b.v then a else b
  }

  /** `Math.min` on two numbers: `NaN` when either is `NaN`. */
  function JsMin(a: Number, b: Number): (r: Number)
    ensures r.NaN? <==> a.NaN? || b.NaN?
    ensures r.Num? ==> r.v <= a.v && r.v <= b.v && (r.v == a.v || r.v == b.v)
  {
    if a.NaN? || b.NaN? then NaN else if a.v <= b.v then a else b
  }

  /** `x + d`: `NaN` stays `NaN`. */
  function Plus(x: Number, d: int): (r: Number)
    ensures r.NaN? <==> x.NaN?
    ensures r.Num? ==> r.v == x.v + d
  {
    if x.NaN? then NaN else Num(x.v + d)
  }

  /** `Math.max(lo, Math.min(hi, x))`, the clamp every handler applies. */
  function Clamp(lo: int, hi: int, x: Number): (r: Number)
    ensures r.NaN? <==> x.NaN?
    ensures r.Num? ==> lo <= r.v
    ensures r.Num? && lo <= hi ==> r.v <= hi
    ensures x.Num? && lo <= x.v <= hi ==> r == x
    ensures x.Num? && lo <= hi && x.v < lo ==> r == Num(lo)
    ensures x.Num? && lo <= hi && hi < x.v ==> r == Num(hi)
  {
    JsMax(Num(lo), JsMin(Num(hi), x))
  }

  /** Clamping twice is clamping once. */
  lemma ClampIdempotent(lo: int, hi: int, x: Number)
    ensures Clamp(lo, hi, Clamp(lo, hi, x)) == Clamp(lo, hi, x)
  {
  }

  /** An inverted range, `lo > hi`, sends every number to `lo`: the outer
      `Math.max` wins. */
  lemma ClampInverted(lo: int, hi: int, x: Number)
    requires hi < lo && x.Num?
    ensures Clamp(lo, hi, x) == Num(lo)
  {
  }

  /** Stepping up at the maximum stays at the maximum, and stepping down at
      the minimum stays at the minimum. */
  lemma StepAtBounds(lo: int, hi: int)
    requires lo <= hi
    ensures Clamp(lo, hi, Plus(Num(hi), 1)) == Num(hi)
    ensures Clamp(lo, hi, Plus(Num(lo), -1)) == Num(lo)
  {
  }

  /** Below the maximum, a decrement undoes an increment. */
  lemma DecrementUndoesIncrement(lo: int, hi: int, v: int)
    requires lo <= v < hi
    ensures Clamp(lo, hi, Plus(Clamp(lo, hi, Plus(Num(v), 1)), -1)) == Num(v)
  {
  }

  /** `n` presses of the increment button. */
  function Increments(lo: int, hi: int, x: Number, n: nat): Number
  {
    if n == 0 then x else Clamp(lo, hi, Plus(Increments(lo, hi, x, n - 1), 1))
  }

  /** From a value in range, `n` increments reach `min(hi, v + n)`. */
  lemma {:induction false} IncrementsReach(lo: int, hi: int, v: int, n: nat)
    requires lo <= v <= hi
    ensures Increments(lo, hi, Num(v), n) == Num(if v + n <= hi then v + n else hi)
  {
    if n > 0 {
      IncrementsReach(lo, hi, v, n - 1);
    }
  }

  /** Once the field holds `NaN` the buttons keep it there: no press brings
      it back into range. */
  lemma {:induction false} NaNSticky(lo: int, hi: int, n: nat)
    ensures Increments(lo, hi, NaN, n) == NaN
    ensures Clamp(lo, hi, Plus(NaN, -1)) == NaN
  {
    if n > 0 {
      NaNSticky(lo, hi, n - 1);
    }
  }

  /** `InputNumber`: the name, the default value and the bounds are fixed at
      construction; `value` is what the handlers update. */
  class InputNumber {
    const name: string
    const defaultValue: int
    const min: int
    const max: int
    var value: Number

    /** Defaults 0, 0 and 100; the value starts at the default. */
    constructor(name: string, defaultValue: int := 0, min: int := 0, max: int := 100)
      ensures this.name == name && this.defaultValue == defaultValue
      ensures this.min == min && this.max == max
      ensures value == Num(defaultValue)
    {
      this.name := name;
      this.defaultValue := defaultValue;
      this.min := min;
      this.max := max;
      value := Num(defaultValue);
    }

    /** A mouse press on the field: the middle button (1) resets the value
        to the default, unclamped; other buttons change nothing. */
    method MouseDown(button: int)
      modifies this`value
      ensures value == if button == 1 then Num(defaultValue) else old(value)
    {
      if button == 1 {
        value := Num(defaultValue);
      }
    }

    /** Typed entry: `parsed` is `parseInt` of the field's text; the value
        becomes it clamped into the range. */
    method TypeEntry(parsed: Number)
      modifies this`value
      ensures value == Clamp(min, max, parsed)
      ensures min <= max && parsed.Num? ==> value.Num? && min <= value.v <= max
      ensures parsed.NaN? ==> value.NaN?
    {
      value := parsed;
      value := JsMax(Num(min), JsMin(Num(max), value));
    }

    /** The decrement button. */
    method Decrement()
      modifies this`value
      ensures value == Clamp(min, max, Plus(old(value), -1))
      ensures min <= max && old(value).Num? ==> value.Num? && min <= value.v <= max
    {
      value := JsMax(Num(min), JsMin(Num(max), Plus(value, -1)));
    }

    /** The increment button. */
    method Increment()
      modifies this`value
      ensures value == Clamp(min, max, Plus(old(value), 1))
      ensures min <= max && old(value).Num? ==> value.Num? && min <= value.v <= max
    {
      value := JsMax(Num(min), JsMin(Num(max), Plus(value, 1)));
    }

    /** `setValue`: stores its argument as it is, without clamping. */
    method SetValue(v: Number)
      modifies this`value
      ensures value == v
    {
      value := v;
    }
  }
}
