/**
 * The donated quantity. The source keeps it in a Java `double`, written with
 * `Double.toString` and read back with `Double.parseDouble`. Here it is an
 * exact decimal number: a sign, a whole part and the digits after the point,
 * kept without trailing zeros so that every number has exactly one text.
 */
module Amount {
  import opened Wrappers
  import opened Digits
  import JavaSplit

  datatype Decimal = Decimal(negative: bool, whole: nat, fraction: seq<Digit>)

  /** No trailing zero after the point: each number has one representation. */
  predicate Canonical(q: Decimal) {
    q.fraction == [] || q.fraction[|q.fraction| - 1] != 0
  }

  type Quantidade = q: Decimal | Canonical(q) witness Decimal(false, 0, [])

  function FractionValue(f: seq<Digit>): real {
    if f == [] then 0.0 else (f[0] as real + FractionValue(f[1..])) / 10.0
  }

  /** The number a quantity stands for: the whole part is its integer part, and the minus sign negates it. */
  function Value(q: Decimal): (v: real)
    ensures !q.negative ==> q.whole as real <= v < q.whole as real + 1.0
    ensures q.negative ==> -(q.whole as real) - 1.0 < v <= -(q.whole as real)
  {
    FractionBounds(q.fraction);
    var magnitude := q.whole as real + FractionValue(q.fraction);
    if q.negative then -magnitude else magnitude
  }

  /** A trailing zero after the point adds nothing to the value. */
  lemma {:induction false} FractionValueDropZero(f: seq<Digit>)
    requires f != [] && f[|f| - 1] == 0
    ensures FractionValue(f[..|f| - 1]) == FractionValue(f)
  {
    if |f| > 1 {
      FractionValueDropZero(f[1..]);
      assert f[..|f| - 1][1..] == f[1..][..|f| - 2];
    }
  }

  /** The fraction digits with trailing zeros removed: a prefix of the same value, cut after its last non-zero digit. */
  function StripZeros(f: seq<Digit>): (r: seq<Digit>)
    ensures |r| <= |f| && r == f[..|r|] && (r == [] || r[|r| - 1] != 0)
    ensures forall k :: |r| <= k < |f| ==> f[k] == 0
    ensures FractionValue(r) == FractionValue(f)
  {
    if f != [] && f[|f| - 1] == 0 then
      FractionValueDropZero(f);
      StripZeros(f[..|f| - 1])
    else
      f
  }

  /** The text of a quantity: an optional minus, the whole part, a point and at least one fraction digit ("20.0", "10.5"). */
  function Render(q: Quantidade): (s: string)
    ensures |s| >= 3
    ensures forall i :: 0 <= i < |s| ==> IsDigit(s[i]) || s[i] == '.' || s[i] == '-'
    ensures forall i :: 0 < i < |s| ==> s[i] != '-'
  {
    (if q.negative then "-" else "") + Unsigned(q)
  }

  /** Removes one leading sign, telling whether it was a minus. */
  function Unsign(s: string): (bool, string) {
    if s != [] && (s[0] == '-' || s[0] == '+') then (s[0] == '-', s[1..]) else (false, s)
  }

  /** The digits before the first point and the digits after it ("" when there is no point). */
  function Parts(body: string): (string, string) {
    var dot := JavaSplit.IndexOf(body, '.');
    (body[..dot], if dot < |body| then body[dot + 1..] else "")
  }

  /**
   * Reads an unsigned number: digits with an optional point and fraction
   * digits ("5", "5.", "5.25"), or a point and fraction digits (".5").
   * Its value is that of the decimal numeral, trailing zeros and all.
   */
  function ParseMagnitude(body: string): (r: Option<Quantidade>)
    ensures r.Some? <==> var (wholeText, fractionText) := Parts(body);
              AllDigits(wholeText) && AllDigits(fractionText) && (wholeText != [] || fractionText != [])
    ensures r.Some? ==> !r.value.negative
    ensures r.Some? ==> Value(r.value) == Digits.Value(Parts(body).0) as real + FractionValue(DigitsOf(Parts(body).1))
  {
    var (wholeText, fractionText) := Parts(body);
    if AllDigits(wholeText) && AllDigits(fractionText) && (wholeText != [] || fractionText != []) then
      Some(Decimal(false, Digits.Value(wholeText), StripZeros(DigitsOf(fractionText))))
    else
      None
  }

  /** Reads plain decimal notation: an optional sign, then an unsigned number, whose value a minus negates. */
  function Parse(s: string): (r: Option<Quantidade>)
    ensures r.Some? <==> ParseMagnitude(Unsign(s).1).Some?
    ensures r.Some? ==> r.value.negative == Unsign(s).0
    ensures r.Some? ==> Value(r.value) == (if Unsign(s).0 then -1.0 else 1.0) * Value(ParseMagnitude(Unsign(s).1).value)
  {
    var (negative, body) := Unsign(s);
    match ParseMagnitude(body)
    case None => None
    case Some(m) => Some(Decimal(negative, m.whole, m.fraction))
  }

  /** The text after the sign: the whole part, a point and the fraction digits. */
  function Unsigned(q: Quantidade): (s: string)
    ensures forall i :: 0 <= i < |s| ==> IsDigit(s[i]) || s[i] == '.'
  {
    Numeral(q.whole) + "." + (if q.fraction == [] then "0" else CharsOf(q.fraction))
  }

  lemma UnsignRender(q: Quantidade)
    ensures Unsign(Render(q)) == (q.negative, Unsigned(q))
  {
    var body := Unsigned(q);
    assert body[0] == Numeral(q.whole)[0];
    if q.negative {
      assert Render(q) == ['-'] + body;
    } else {
      assert Render(q) == body;
    }
  }

  lemma ParseUnsigned(q: Quantidade)
    ensures var body := Unsigned(q);
            Parts(body) == (Numeral(q.whole), if q.fraction == [] then "0" else CharsOf(q.fraction))
  {
    var numeral := Numeral(q.whole);
    var body := Unsigned(q);
    assert body[|numeral|] == '.';
    assert JavaSplit.IndexOf(body, '.') == |numeral|;
    assert body[..|numeral|] == numeral;
    assert body[|numeral| + 1..] == (if q.fraction == [] then "0" else CharsOf(q.fraction));
  }

  /** The fraction text of a canonical quantity reads back as its fraction digits. */
  lemma FractionTextDigits(q: Quantidade)
    ensures var text := if q.fraction == [] then "0" else CharsOf(q.fraction);
            AllDigits(text) && StripZeros(DigitsOf(text)) == q.fraction
  {
    if q.fraction == [] {
      assert DigitsOf("0") == [0];
    }
  }

  /** Reading back the text of a quantity gives that same quantity. */
  lemma ParseRender(q: Quantidade)
    ensures Parse(Render(q)) == Some(q)
  {
    UnsignRender(q);
    ParseUnsigned(q);
    ValueOfNumeral(q.whole);
    FractionTextDigits(q);
    var body := Unsigned(q);
    assert Digits.Value(Parts(body).0) == q.whole;
    assert StripZeros(DigitsOf(Parts(body).1)) == q.fraction;
    assert ParseMagnitude(body) == Some(Decimal(false, q.whole, q.fraction));
  }

  lemma {:induction false} FractionBounds(f: seq<Digit>)
    ensures 0.0 <= FractionValue(f) < 1.0
  {
    if f != [] {
      FractionBounds(f[1..]);
    }
  }
}
