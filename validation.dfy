/** `validation.js`: cleaning what is typed into a numeric text field, and
    clamping and snapping the parsed number to a range. */
module Validation {
  import opened Wrappers
  import opened SeqUtil
  import opened Values
  import Arith

  /** The two field types `validateData` accepts. */
  datatype Kind = IntKind | FloatKind

  /** The characters the `float` pattern `[^0-9.]` keeps. */
  predicate FloatChar(c: char) {
    IsDigit(c) || c == '.'
  }

  predicate NotDot(c: char) {
    c != '.'
  }

  /** The decimal digits of `s`, in order. */
  function Digits(s: string): string {
    Filter(s, IsDigit)
  }

  /** JavaScript's `s.slice(0, n)` for n > 0. */
  function Prefix(s: string, n: int): (r: string)
    requires n > 0
    ensures |r| <= n && |r| <= |s| && r == s[..|r|]
    ensures |s| <= n ==> r == s
    ensures |s| > n ==> |r| == n
  {
    if n < |s| then s[..n] else s
  }

  // ---------------------------------------------------------------------
  // `validateData`

  /** What `validateData` returns for a field of the given kind, stated
      without reference to the order of its steps: in `int` mode the digits
      of the input, at most `slice` of them when `slice` is positive; in
      `float` mode the digits before the first dot, that dot, and the digits
      after it (at most `slice` of those when `slice` is positive); in
      `float` mode without any dot, all the digits, however many. */
  function Sanitised(kind: Kind, value: string, slice: int): string {
    match kind
    case IntKind =>
      var digits := Digits(value);
      if slice > 0 then Prefix(digits, slice) else digits
    case FloatKind =>
      match IndexOf(value, '.')
      case None => Digits(value)
      case Some(d) =>
        var fraction := Digits(value[d + 1..]);
        Digits(value[..d]) + "." + (if slice > 0 then Prefix(fraction, slice) else fraction)
  }

  /** `validateData(value, type, slice)` as the source runs it: remove the
      characters the type's pattern forbids, keep only the first dot, then cut
      the decimal part or the whole string to `slice` characters. Any type
      other than 'int' or 'float' throws. */
  method ValidateData(value: string, t: string, slice: int) returns (r: Result<string>)
    ensures t == "int" ==> r == Ok(Sanitised(IntKind, value, slice))
    ensures t == "float" ==> r == Ok(Sanitised(FloatKind, value, slice))
    ensures t != "int" && t != "float" ==> r == Err("Invalid type specified")
  {
    var kind: Kind;
    var dotAllowed := false;
    if t == "int" {
      kind := IntKind;
    } else if t == "float" {
      kind := FloatKind;
      dotAllowed := true;
    } else {
      return Err("Invalid type specified");
    }
    var allowed: char -> bool := if dotAllowed then FloatChar else IsDigit;
    var stringVal := Filter(value, allowed);
    if dotAllowed {
      FloatKept(value);
      var dotIndex := IndexOf(stringVal, '.');
      if dotIndex.Some? {
        var integerPart := stringVal[..dotIndex.value];
        var decimalPart := stringVal[dotIndex.value + 1..];
        stringVal := integerPart + "." + Filter(decimalPart, NotDot);
      }
    }
    if kind == FloatKind && '.' in stringVal && slice > 0 {
      var d := IndexOf(value, '.').value;
      SplitOneDot(Digits(value[..d]), Digits(value[d + 1..]));
      var parts := Split(stringVal, '.');
      stringVal := parts[0] + "." + Prefix(parts[1], slice);
    } else if kind == IntKind && slice > 0 {
      stringVal := Prefix(stringVal, slice);
    }
    r := Ok(stringVal);
  }

  /** After the `float` filter the first dot sits right after the digits that
      precede the first dot of the input, and the digits after it are the
      input's remaining digits. */
  lemma FloatKept(value: string)
    ensures IndexOf(value, '.').None? ==> Filter(value, FloatChar) == Digits(value)
    ensures IndexOf(value, '.').Some? ==>
      var d := IndexOf(value, '.').value;
      var kept := Filter(value, FloatChar);
      var j := |Digits(value[..d])|;
      IndexOf(kept, '.') == Some(j) && j < |kept| &&
      kept[..j] == Digits(value[..d]) && Filter(kept[j + 1..], NotDot) == Digits(value[d + 1..])
  {
    match IndexOf(value, '.')
    case None =>
      FilterAgree(value, FloatChar, IsDigit);
    case Some(d) =>
      var pre, post := value[..d], value[d + 1..];
      assert value == pre + "." + post;
      FilterConcat(pre + ".", post, FloatChar);
      FilterConcat(pre, ".", FloatChar);
      assert Filter(".", FloatChar) == ".";
      FilterAgree(pre, FloatChar, IsDigit);
      var a := Digits(pre);
      var rest := Filter(post, FloatChar);
      var kept := Filter(value, FloatChar);
      assert kept == a + "." + rest;
      DotFree(pre);
      IndexOfAfterDotFree(a, rest);
      assert kept[..|a|] == a;
      assert kept[|a| + 1..] == rest;
      FilterFilter(post, FloatChar, NotDot, IsDigit);
  }

  /** Digits contain no dot. */
  lemma DotFree(s: string)
    ensures '.' !in Digits(s)
  {
  }

  /** The first dot of `a + "." + b` is at `|a|` when `a` has none. */
  lemma IndexOfAfterDotFree(a: string, b: string)
    requires '.' !in a
    ensures IndexOf(a + "." + b, '.') == Some(|a|)
  {
    var s := a + "." + b;
    assert s[|a|] == '.';
    assert s[..|a|] == a;
  }

  /** A string with one dot splits into the parts either side of it. */
  lemma SplitOneDot(a: string, b: string)
    requires '.' !in a && '.' !in b
    ensures Split(a + "." + b, '.') == [a, b]
  {
    SplitAtSeparator(a, b, '.');
    SplitNoSeparator(b, '.');
  }

  /** In `int` mode the result holds only digits; in `float` mode only digits
      and at most one dot. */
  lemma SanitisedChars(kind: Kind, value: string, slice: int)
    ensures var r := Sanitised(kind, value, slice);
      forall i :: 0 <= i < |r| ==> IsDigit(r[i]) || (kind == FloatKind && r[i] == '.')
    ensures var r := Sanitised(kind, value, slice);
      forall i, j :: 0 <= i < j < |r| && r[i] == '.' ==> r[j] != '.'
  {
    if kind == FloatKind && IndexOf(value, '.').Some? {
      var d := IndexOf(value, '.').value;
      var a := Digits(value[..d]);
      var fraction := Digits(value[d + 1..]);
      var f := if slice > 0 then Prefix(fraction, slice) else fraction;
      SanitisedAtDot(value, d, slice);
      assert forall i :: 0 <= i < |f| ==> f[i] == fraction[i];
      DotFormChars(a, f);
    } else {
      var r := Sanitised(kind, value, slice);
      var digits := Digits(value);
      assert forall i :: 0 <= i < |r| ==> r[i] == digits[i];
    }
  }

  /** Digits, one dot, digits: the dot is the only one. */
  lemma DotFormChars(a: string, f: string)
    requires forall i :: 0 <= i < |a| ==> IsDigit(a[i])
    requires forall i :: 0 <= i < |f| ==> IsDigit(f[i])
    ensures var r := a + "." + f;
      forall i :: 0 <= i < |r| ==> IsDigit(r[i]) || r[i] == '.'
    ensures var r := a + "." + f;
      forall i, j :: 0 <= i < j < |r| && r[i] == '.' ==> r[j] != '.'
  {
    var r := a + "." + f;
    forall i | 0 <= i < |r|
      ensures IsDigit(r[i]) || r[i] == '.'
      ensures r[i] == '.' ==> i == |a|
    {
      if i < |a| {
        assert r[i] == a[i];
      } else if i > |a| {
        assert r[i] == f[i - |a| - 1];
      }
    }
  }

  /** The characters kept appear in the input, in the same order. */
  lemma SanitisedKeepsOrder(kind: Kind, value: string, slice: int)
    ensures IsSubsequence(Sanitised(kind, value, slice), value)
  {
    match kind
    case IntKind =>
      var digits := Digits(value);
      FilterSubsequence(value, IsDigit);
      if slice > 0 {
        PrefixSubsequence(digits, |Prefix(digits, slice)|);
        SubsequenceTrans(Prefix(digits, slice), digits, value);
      }
    case FloatKind =>
      match IndexOf(value, '.')
      case None =>
        FilterSubsequence(value, IsDigit);
      case Some(d) =>
        var pre, post := value[..d], value[d + 1..];
        assert value == pre + "." + post;
        var fraction := Digits(post);
        var f := if slice > 0 then Prefix(fraction, slice) else fraction;
        FilterSubsequence(pre, IsDigit);
        FilterSubsequence(post, IsDigit);
        if slice > 0 {
          PrefixSubsequence(fraction, |f|);
          SubsequenceTrans(f, fraction, post);
        }
        SubsequenceRefl(".");
        SubsequenceConcat(Digits(pre), pre, ".", ".");
        SubsequenceConcat(Digits(pre) + ".", pre + ".", f, post);
  }

  /** `float` mode on an input with a first dot at `d`. */
  lemma SanitisedAtDot(value: string, d: nat, slice: int)
    requires IndexOf(value, '.') == Some(d)
    ensures var fraction := Digits(value[d + 1..]);
      Sanitised(FloatKind, value, slice) ==
      Digits(value[..d]) + "." + (if slice > 0 then Prefix(fraction, slice) else fraction)
  {
  }

  /** The digits around the first dot make up all the digits. */
  lemma DigitsAroundDot(value: string, d: nat)
    requires d < |value| && value[d] == '.'
    ensures Digits(value) == Digits(value[..d]) + Digits(value[d + 1..])
  {
    var pre, post := value[..d], value[d + 1..];
    assert value == pre + "." + post;
    FilterConcat(pre + ".", post, IsDigit);
    FilterConcat(pre, ".", IsDigit);
    assert Filter(".", IsDigit) == "";
  }

  /** Cleaning, in `float` mode, a string of digits with one dot keeps the
      part before the dot and cuts the part after it. */
  lemma SanitisedDotForm(a: string, f: string, slice: int)
    requires Digits(a) == a && Digits(f) == f
    ensures Sanitised(FloatKind, a + "." + f, slice) == a + "." + (if slice > 0 then Prefix(f, slice) else f)
  {
    var s := a + "." + f;
    DotFree(a);
    DotFree(f);
    IndexOfAfterDotFree(a, f);
    assert s[..|a|] == a;
    assert s[|a| + 1..] == f;
  }

  /** Cleaning what was already cleaned, with the same type and slice,
      changes nothing. */
  lemma SanitisedIdempotent(kind: Kind, value: string, slice: int)
    ensures Sanitised(kind, Sanitised(kind, value, slice), slice) == Sanitised(kind, value, slice)
  {
    var r := Sanitised(kind, value, slice);
    match kind
    case IntKind =>
      FilterKeepsAll(r, IsDigit);
    case FloatKind =>
      match IndexOf(value, '.')
      case None =>
        DotFree(value);
        FilterKeepsAll(r, IsDigit);
      case Some(d) =>
        var a := Digits(value[..d]);
        var fraction := Digits(value[d + 1..]);
        var f := if slice > 0 then Prefix(fraction, slice) else fraction;
        SanitisedAtDot(value, d, slice);
        FilterKeepsAll(a, IsDigit);
        FilterKeepsAll(f, IsDigit);
        SanitisedDotForm(a, f, slice);
  }

  /** Digits of `a + "." + f` for digit strings `a` and `f`. */
  lemma DigitsDotForm(a: string, f: string)
    requires Digits(a) == a && Digits(f) == f
    ensures Digits(a + "." + f) == a + f
  {
    FilterConcat(a + ".", f, IsDigit);
    FilterConcat(a, ".", IsDigit);
    assert Filter(".", IsDigit) == "";
  }

  /** A cleaned field is empty of digits exactly when the input was. */
  lemma SanitisedDigits(kind: Kind, value: string, slice: int)
    ensures Digits(Sanitised(kind, value, slice)) == [] <==> Digits(value) == []
  {
    var r := Sanitised(kind, value, slice);
    match kind
    case IntKind =>
      FilterKeepsAll(r, IsDigit);
    case FloatKind =>
      match IndexOf(value, '.')
      case None =>
        FilterKeepsAll(r, IsDigit);
      case Some(d) =>
        var a := Digits(value[..d]);
        var fraction := Digits(value[d + 1..]);
        var f := if slice > 0 then Prefix(fraction, slice) else fraction;
        SanitisedAtDot(value, d, slice);
        DigitsAroundDot(value, d);
        FilterKeepsAll(a, IsDigit);
        FilterKeepsAll(f, IsDigit);
        DigitsDotForm(a, f);
  }

  // ---------------------------------------------------------------------
  // `getDecimalPlaces`

  /** `getDecimalPlaces(step)` on the text of `step`: 0 without a dot,
      otherwise the length of the whole text (not the number of digits after
      the dot that its comment describes). */
  function DecimalPlaces(stepText: string): (r: nat)
    ensures '.' !in stepText ==> r == 0
    ensures '.' in stepText ==> r == |stepText|
  {
    if '.' !in stepText then 0 else |stepText|
  }

  /** The number of digits after the first dot, as the comment describes. */
  function FractionDigits(stepText: string): nat {
    match IndexOf(stepText, '.')
    case None => 0
    case Some(d) => |stepText| - d - 1
  }

  /** The count never falls short of the step's own decimals, so cutting the
      decimal part to it never cuts below the step's precision. */
  lemma DecimalPlacesCoversFraction(stepText: string)
    ensures DecimalPlaces(stepText) >= FractionDigits(stepText)
    ensures '.' in stepText ==> DecimalPlaces(stepText) > FractionDigits(stepText)
  {
  }

  /** For the step 0.01 the count is 4. */
  lemma DecimalPlacesOfHundredth()
    ensures DecimalPlaces("0.01") == 4 && FractionDigits("0.01") == 2
  {
    assert "0.01"[1] == '.';
    assert IndexOf("0.01", '.') == Some(1) by {
      assert "0.01"[0] != '.';
    }
  }

  // ---------------------------------------------------------------------
  // `validateInput`: value logic only.

  function Pow10(n: nat): (r: nat)
    ensures r >= 1
  {
    if n == 0 then 1 else 10 * Pow10(n - 1)
  }

  /** `parseInt(s, 10)` on a string without sign or leading space: the
      leading run of digits, NaN when there is none; a run too large for a
      double is `Infinity`. */
  function ParseDecimalInt(s: string): (n: Number)
    ensures n.NaN? <==> LeadingRun(s, IsDigit) == []
    ensures n.Infinite? <==> LeadingRun(s, IsDigit) != [] && DigitsValue(LeadingRun(s, IsDigit)) as real >= Overflow
    ensures n.Infinite? ==> !n.negative
    ensures n.Finite? ==> n.v == DigitsValue(LeadingRun(s, IsDigit)) as real
  {
    var whole := LeadingRun(s, IsDigit);
    if whole == [] then NaN else FromExact(DigitsValue(whole) as real)
  }

  /** The digits after the dot that follows the leading digits, if any. */
  function FractionPart(s: string): (r: string)
    ensures AllDigits(r)
    ensures r != [] ==> |LeadingRun(s, IsDigit)| < |s| && s[|LeadingRun(s, IsDigit)|] == '.'
  {
    var rest := s[|LeadingRun(s, IsDigit)|..];
    if rest != [] && rest[0] == '.' then LeadingRun(rest[1..], IsDigit) else ""
  }

  /** The exact value of `whole.fraction`. */
  function DecimalValue(whole: string, fraction: string): real
    requires AllDigits(whole) && AllDigits(fraction)
  {
    DigitsValue(whole) as real + DigitsValue(fraction) as real / Pow10(|fraction|) as real
  }

  /** `parseFloat(s)` on a string without sign, exponent or leading space:
      the leading digits, then a dot and the digits after it; NaN when
      neither part has a digit, `Infinity` when the value is too large for
      a double. */
  function ParseFloat(s: string): (n: Number)
    ensures n.NaN? <==> LeadingRun(s, IsDigit) == [] && FractionPart(s) == []
    ensures !n.NaN? ==> (n.Infinite? <==> DecimalValue(LeadingRun(s, IsDigit), FractionPart(s)) >= Overflow)
    ensures n.Infinite? ==> !n.negative
    ensures n.Finite? ==> n.v == DecimalValue(LeadingRun(s, IsDigit), FractionPart(s))
  {
    var whole := LeadingRun(s, IsDigit);
    var fraction := FractionPart(s);
    if whole == [] && fraction == [] then NaN
    else
      assert DecimalValue(whole, fraction) >= 0.0;
      FromExact(DecimalValue(whole, fraction))
  }

  /** `numberRange`: `[min, max, step]`. */
  datatype NumberRange = NumberRange(min: real, max: real, step: real)

  function RMin(a: real, b: real): real {
    if a <= b then a else b
  }

  function RMax(a: real, b: real): real {
    if a >= b then a else b
  }

  /** `Math.round`: halves round up. */
  function Round(x: real): int {
    (x + 0.5).Floor
  }

  /** The k-th point of the step grid that starts at `min`. */
  function GridPoint(range: NumberRange, k: nat): real {
    range.min + k as real * range.step
  }

  /** Clamp into the range, round to the nearest grid point, and clamp the
      result to `max` again. A zero step divides by zero, which gives NaN. */
  function Snap(v: real, range: NumberRange): (n: Number)
    ensures n.NaN? <==> range.step == 0.0
  {
    var clamped := RMin(RMax(v, range.min), range.max);
    if range.step == 0.0 then NaN
    else
      var stepped := Round((clamped - range.min) / range.step) as real * range.step + range.min;
      Finite(RMin(stepped, range.max))
  }

  /** What `validateInput` writes into the field. */
  datatype Written = Blank | Value(n: Number)

  /** The number `validateInput` parses from the field's text. The text
      forms of `max` and `step` are parameters, because
      `Number.prototype.toString` is not modelled. */
  function Parsed(text: string, kind: Kind, maxText: string, stepText: string): Number {
    match kind
    case IntKind => ParseDecimalInt(Sanitised(IntKind, text, |maxText|))
    case FloatKind => ParseFloat(Sanitised(FloatKind, text, DecimalPlaces(stepText)))
  }

  /** `validateInput(input, type, numberRange)` on the field's text: NaN
      blanks the field, any other number is clamped and snapped, an
      infinity clamping to the bound of its sign. */
  function ValidateInput(text: string, kind: Kind, range: NumberRange, maxText: string, stepText: string): (r: Written)
    ensures r.Value? ==> (r.n.NaN? <==> range.step == 0.0)
  {
    match Parsed(text, kind, maxText, stepText)
    case NaN => Blank
    case Finite(v) => Value(Snap(v, range))
    case Infinite(negative) => Value(Snap(if negative then range.min else range.max, range))
  }

  /** An entry too large for a double writes what any entry at or above
      `max` writes. */
  lemma ValidateInputOverflow(text: string, kind: Kind, range: NumberRange, maxText: string, stepText: string, v: real)
    requires Parsed(text, kind, maxText, stepText).Infinite? && v >= range.max
    ensures ValidateInput(text, kind, range, maxText, stepText) == Value(Snap(v, range))
  {
    var p := Parsed(text, kind, maxText, stepText);
    assert !p.negative by {
      match kind
      case IntKind =>
      case FloatKind =>
    }
  }

  lemma RoundMonotone(x: real, y: real)
    requires x <= y
    ensures Round(x) <= Round(y)
  {
  }

  /** For a positive step and `min <= max` the snapped value lies in the
      range and is a grid point or `max` itself. */
  lemma SnapOnGrid(v: real, range: NumberRange)
    requires range.min <= range.max && range.step > 0.0
    ensures Snap(v, range).Finite?
    ensures var w := Snap(v, range).v;
      range.min <= w <= range.max &&
      (w == range.max || exists k: nat :: GridPoint(range, k) == w)
  {
    var clamped := RMin(RMax(v, range.min), range.max);
    var x := (clamped - range.min) / range.step;
    assert x >= 0.0;
    var k := Round(x);
    assert k >= 0;
    assert k as real * range.step >= 0.0;
    var stepped := k as real * range.step + range.min;
    if stepped < range.max {
      assert GridPoint(range, k) == stepped;
    }
  }

  lemma MulLe(a: real, b: real, s: real)
    requires a <= b && s > 0.0
    ensures a * s <= b * s
  {
    assert b * s - a * s == (b - a) * s;
    Arith.MulNonNeg(b - a, s);
  }

  lemma DivLe(a: real, b: real, s: real)
    requires a <= b && s > 0.0
    ensures a / s <= b / s
  {
    assert b / s - a / s == (b - a) / s;
  }

  lemma MulDivCancel(k: real, s: real)
    requires s != 0.0
    ensures (k * s) / s == k
  {
  }

  /** A grid point inside the range snaps to itself. */
  lemma SnapGridPoint(range: NumberRange, k: nat)
    requires range.step > 0.0 && GridPoint(range, k) <= range.max
    ensures Snap(GridPoint(range, k), range) == Finite(GridPoint(range, k))
  {
    var w := GridPoint(range, k);
    Arith.MulNonNeg(k as real, range.step);
    assert w - range.min == k as real * range.step;
    MulDivCancel(k as real, range.step);
    assert RMin(RMax(w, range.min), range.max) == w;
    assert (w - range.min) / range.step == k as real;
    assert Round(k as real) == k;
    assert Round((w - range.min) / range.step) as real * range.step + range.min == w;
  }

  /** The number of steps `Snap` rounds to, from a clamped value. */
  function StepsFrom(c: real, range: NumberRange): int
    requires range.step != 0.0
  {
    Round((c - range.min) / range.step)
  }

  /** `Snap` through its named steps. */
  lemma SnapSteps(v: real, range: NumberRange)
    requires range.step != 0.0
    ensures Snap(v, range) ==
      Finite(RMin(StepsFrom(RMin(RMax(v, range.min), range.max), range) as real * range.step + range.min, range.max))
  {
  }

  /** More of the range gives at least as many steps. */
  lemma StepsMonotone(c: real, d: real, range: NumberRange)
    requires range.step > 0.0 && c <= d
    ensures StepsFrom(c, range) as real * range.step <= StepsFrom(d, range) as real * range.step
  {
    DivLe(c - range.min, d - range.min, range.step);
    RoundMonotone((c - range.min) / range.step, (d - range.min) / range.step);
    MulLe(StepsFrom(c, range) as real, StepsFrom(d, range) as real, range.step);
  }

  /** Inside the range the step count is a natural number. */
  lemma StepsNatural(c: real, range: NumberRange)
    requires range.step > 0.0 && range.min <= c
    ensures StepsFrom(c, range) >= 0
  {
    DivLe(0.0, c - range.min, range.step);
    RoundMonotone(0.0, (c - range.min) / range.step);
  }

  /** Snapping a snapped value changes nothing. */
  lemma SnapIdempotent(v: real, range: NumberRange)
    requires range.min <= range.max && range.step > 0.0
    ensures Snap(Snap(v, range).v, range) == Snap(v, range)
  {
    var clamped := RMin(RMax(v, range.min), range.max);
    var k := StepsFrom(clamped, range);
    StepsNatural(clamped, range);
    if k as real * range.step + range.min < range.max {
      SnapToGridPoint(v, range, clamped, k);
    } else {
      SnapToMax(v, range, clamped, k);
    }
  }

  /** A value that snaps below `max` snaps to a grid point. */
  lemma SnapToGridPoint(v: real, range: NumberRange, clamped: real, k: nat)
    requires range.min <= range.max && range.step > 0.0
    requires clamped == RMin(RMax(v, range.min), range.max) && k == StepsFrom(clamped, range)
    requires GridPoint(range, k) < range.max
    ensures Snap(v, range) == Finite(GridPoint(range, k))
    ensures Snap(GridPoint(range, k), range) == Finite(GridPoint(range, k))
  {
    SnapSteps(v, range);
    SnapGridPoint(range, k);
  }

  /** A value that snaps to `max`, and `max` itself, snap alike. */
  lemma SnapToMax(v: real, range: NumberRange, clamped: real, k: int)
    requires range.min <= range.max && range.step > 0.0
    requires clamped == RMin(RMax(v, range.min), range.max) && k == StepsFrom(clamped, range)
    requires k as real * range.step + range.min >= range.max
    ensures Snap(v, range) == Finite(range.max)
    ensures Snap(range.max, range) == Finite(range.max)
  {
    SnapAbove(v, range, clamped);
    StepsMonotone(clamped, range.max, range);
    SnapAbove(range.max, range, range.max);
  }

  /** Rounding up to `max` or beyond writes `max`. */
  lemma SnapAbove(v: real, range: NumberRange, clamped: real)
    requires range.step > 0.0
    requires clamped == RMin(RMax(v, range.min), range.max)
    requires StepsFrom(clamped, range) as real * range.step + range.min >= range.max
    ensures Snap(v, range) == Finite(range.max)
  {
    SnapSteps(v, range);
  }

  /** `validateInput` writes '' exactly when the text holds no digit. */
  lemma ValidateInputBlank(text: string, kind: Kind, range: NumberRange, maxText: string, stepText: string)
    ensures ValidateInput(text, kind, range, maxText, stepText) == Blank <==> Digits(text) == []
  {
    match kind
    case IntKind =>
      IntParsesUnlessEmpty(text, |maxText|);
    case FloatKind =>
      FloatParsesUnlessEmpty(text, DecimalPlaces(stepText));
  }

  /** In `int` mode the cleaned text parses unless the input had no digit. */
  lemma IntParsesUnlessEmpty(text: string, slice: int)
    ensures ParseDecimalInt(Sanitised(IntKind, text, slice)).NaN? <==> Digits(text) == []
  {
    var r := Sanitised(IntKind, text, slice);
    SanitisedDigits(IntKind, text, slice);
    SanitisedChars(IntKind, text, slice);
    FilterKeepsAll(r, IsDigit);
    LeadingRunAll(r);
  }

  /** In `float` mode the cleaned text parses unless the input had no digit. */
  lemma FloatParsesUnlessEmpty(text: string, slice: int)
    ensures ParseFloat(Sanitised(FloatKind, text, slice)).NaN? <==> Digits(text) == []
  {
    var r := Sanitised(FloatKind, text, slice);
    SanitisedDigits(FloatKind, text, slice);
    match IndexOf(text, '.')
    case None =>
      FilterKeepsAll(r, IsDigit);
      LeadingRunAll(r);
      assert r[|r|..] == [];
    case Some(d) =>
      var a := Digits(text[..d]);
      var fraction := Digits(text[d + 1..]);
      var f := if slice > 0 then Prefix(fraction, slice) else fraction;
      SanitisedAtDot(text, d, slice);
      FilterKeepsAll(a, IsDigit);
      FilterKeepsAll(f, IsDigit);
      FloatBlank(a, f);
      DigitsDotForm(a, f);
  }

  /** `parseFloat` of digits, a dot and digits is NaN exactly when both
      parts are empty. */
  lemma FloatBlank(a: string, f: string)
    requires Digits(a) == a && Digits(f) == f
    ensures ParseFloat(a + "." + f).NaN? <==> a + f == []
  {
    var r := a + "." + f;
    LeadingRunStops(a, "." + f);
    assert r[|a|..] == "." + f;
    assert ("." + f)[1..] == f;
    LeadingRunAll(f);
  }

  /** The leading digits of a string of digits are all of it. */
  lemma LeadingRunAll(s: string)
    requires Filter(s, IsDigit) == s
    ensures LeadingRun(s, IsDigit) == s
  {
  }

  /** The leading digits of `a + rest` are `a` when `rest` starts with a
      non-digit. */
  lemma LeadingRunStops(a: string, rest: string)
    requires Filter(a, IsDigit) == a && rest != [] && !IsDigit(rest[0])
    ensures LeadingRun(a + rest, IsDigit) == a
  {
    assert (a + rest)[..|a|] == a;
  }

  /** Otherwise, for a positive step and `min <= max`, the written value lies
      in the range and is a grid point or `max`. */
  lemma ValidateInputInRange(text: string, kind: Kind, range: NumberRange, maxText: string, stepText: string)
    requires range.min <= range.max && range.step > 0.0
    requires Digits(text) != []
    ensures var w := ValidateInput(text, kind, range, maxText, stepText);
      w.Value? && w.n.Finite? && range.min <= w.n.v <= range.max &&
      (w.n.v == range.max || exists k: nat :: GridPoint(range, k) == w.n.v)
  {
    ValidateInputBlank(text, kind, range, maxText, stepText);
    var parsed := Parsed(text, kind, maxText, stepText);
    match parsed
    case Finite(v) => SnapOnGrid(v, range);
    case Infinite(negative) => SnapOnGrid(if negative then range.min else range.max, range);
  }

  /** Digits of a string with one more character at the end. */
  lemma DigitsSnoc(s: string, c: char)
    ensures Digits(s + [c]) == if IsDigit(c) then Digits(s) + [c] else Digits(s)
  {
    assert (s + [c])[..|s|] == s;
  }

  /** Example: letters go and the digits are cut to two. */
  lemma IntExample()
    ensures Sanitised(IntKind, "1a2b3", 2) == "12"
  {
    DigitsSnoc("", '1');
    assert "" + ['1'] == "1";
    DigitsSnoc("1", 'a');
    assert "1" + ['a'] == "1a";
    DigitsSnoc("1a", '2');
    assert "1a" + ['2'] == "1a2";
    DigitsSnoc("1a2", 'b');
    assert "1a2" + ['b'] == "1a2b";
    DigitsSnoc("1a2b", '3');
    assert "1a2b" + ['3'] == "1a2b3";
    assert Digits("1a2b3") == "123";
    assert "123"[..2] == "12";
  }

  /** Example: the second dot goes and the digits after it close up. */
  lemma FloatExample()
    ensures Sanitised(FloatKind, "1.2.3", 0) == "1.23"
  {
    SecondDotDropped("1", "2.3");
    assert "1" + "." + "2.3" == "1.2.3";
  }

  lemma SecondDotDropped(pre: string, post: string)
    requires pre == "1" && post == "2.3"
    ensures Sanitised(FloatKind, pre + "." + post, 0) == "1.23"
  {
    IndexOfAfterDotFree(pre, post);
    var value := pre + "." + post;
    SanitisedAtDot(value, |pre|, 0);
    assert value[..|pre|] == pre;
    assert value[|pre| + 1..] == post;
    OneDigit('1');
    DigitsOfTwoDotThree(post);
  }

  lemma DigitsOfTwoDotThree(s: string)
    requires s == "2.3"
    ensures Digits(s) == "23"
  {
    DigitsSnoc("", '2');
    assert "" + ['2'] == "2";
    DigitsSnoc("2", '.');
    assert "2" + ['.'] == "2.";
    DigitsSnoc("2.", '3');
    assert "2." + ['3'] == "2.3";
  }

  lemma OneDigit(c: char)
    requires IsDigit(c)
    ensures Digits([c]) == [c]
  {
    DigitsSnoc("", c);
    assert "" + [c] == [c];
  }

}
