// format_duration, over exact reals: the text it makes, and what that text
// says when it is read back.
module Durations {

  // ---------- decimal text ----------

  // Python rounds to the nearest, and halves to even.
  function Round(x: real): int {
    var f := x.Floor;
    var rest := x - f as real;
    if rest < 0.5 then f
    else if rest > 0.5 then f + 1
    else if f % 2 == 0 then f
    else f + 1
  }

  function DigitOf(d: nat): char
    requires d < 10
  {
    "0123456789"[d]
  }

  function Decimal(n: nat): (s: string)
    ensures s != "" && forall c :: c in s ==> '0' <= c <= '9'
  {
    if n < 10 then [DigitOf(n)] else Decimal(n / 10) + [DigitOf(n % 10)]
  }

  // "{:.0f}"
  function Whole(v: real): string
    requires v >= 0.0
  {
    RoundNatural(v);
    Decimal(Round(v))
  }

  // "{:.1f}"
  function OneDigit(v: real): string
    requires v >= 0.0
  {
    RoundNatural(10.0 * v);
    Tenths(Round(10.0 * v))
  }

  function Tenths(t: nat): string {
    Decimal(t / 10) + "." + [DigitOf(t % 10)]
  }

  function RemoveSuffix(s: string, suffix: string): string {
    if suffix != "" && |suffix| <= |s| && s[|s| - |suffix|..] == suffix then s[..|s| - |suffix|] else s
  }

  function FormatDuration(duration: real, align: bool): string
    requires duration >= 0.0
  {
    var (value, unit) := if duration >= 3600.0 then (duration / 3600.0, "h")
                         else if duration >= 300.0 then (duration / 60.0, "m")
                         else (duration, "s");
    if align then OneDigit(value) + unit
    else if value > 10.0 then Whole(value) + unit
    else RemoveSuffix(OneDigit(value), ".0") + unit
  }

  // ---------- reading it back ----------

  function ReadDecimal(s: string): nat {
    if s == "" then 0
    else 10 * ReadDecimal(s[..|s| - 1]) + (if '0' <= s[|s| - 1] <= '9' then s[|s| - 1] as int - '0' as int else 0)
  }

  function ReadNumber(s: string): real {
    if |s| >= 2 && s[|s| - 2] == '.' then ReadDecimal(s[..|s| - 2]) as real + ReadDecimal(s[|s| - 1..]) as real / 10.0
    else ReadDecimal(s) as real
  }

  function UnitSeconds(c: char): real {
    if c == 'h' then 3600.0 else if c == 'm' then 60.0 else 1.0
  }

  function ReadDuration(s: string): real
    requires s != ""
  {
    ReadNumber(s[..|s| - 1]) * UnitSeconds(s[|s| - 1])
  }

  // ---------- rounding ----------

  lemma RoundNatural(x: real)
    requires x >= 0.0
    ensures Round(x) >= 0
  {}

  // To the nearest whole number, and halfway between two to the even one.
  lemma RoundIs(x: real)
    ensures -0.5 <= Round(x) as real - x <= 0.5
    ensures Round(x) as real - x == 0.5 || x - Round(x) as real == 0.5 ==> Round(x) % 2 == 0
  {}

  lemma RoundNear(x: real)
    ensures -0.5 <= Round(x) as real - x <= 0.5
  {}

  lemma RoundInt(n: int)
    ensures Round(n as real) == n
  {}

  lemma RoundMonotone(x: real, y: real)
    requires x <= y
    ensures Round(x) <= Round(y)
  {}

  // ---------- texts say the numbers they were made from ----------

  lemma {:induction false} DecimalReads(n: nat)
    ensures ReadDecimal(Decimal(n)) == n
  {
    if n < 10 {
      assert [DigitOf(n)][..0] == "";
    } else {
      DecimalReads(n / 10);
      var s := Decimal(n);
      assert s[..|s| - 1] == Decimal(n / 10);
    }
  }

  lemma WholeReads(n: nat)
    ensures ReadNumber(Decimal(n)) == n as real
  {
    DecimalReads(n);
    var s := Decimal(n);
    if |s| >= 2 {
      assert s[|s| - 2] in s;
    }
  }

  lemma TenthsRead(t: nat)
    ensures ReadNumber(Tenths(t)) == t as real / 10.0
  {
    var s := Tenths(t);
    var d := Decimal(t / 10);
    assert s[|s| - 2] == '.' && s[..|s| - 2] == d && s[|s| - 1..] == [DigitOf(t % 10)];
    DecimalReads(t / 10);
    assert Decimal(t % 10) == [DigitOf(t % 10)];
    DecimalReads(t % 10);
  }

  // Taking ".0" off never changes the number.
  lemma StrippedReads(t: nat)
    ensures ReadNumber(RemoveSuffix(Tenths(t), ".0")) == ReadNumber(Tenths(t))
    ensures RemoveSuffix(Tenths(t), ".0") == if t % 10 == 0 then Decimal(t / 10) else Tenths(t)
  {
    var s := Tenths(t);
    assert s[|s| - 2..] == "." + [DigitOf(t % 10)];
    assert s[..|s| - 2] == Decimal(t / 10);
    assert (DigitOf(t % 10) == '0') <==> t % 10 == 0;
    assert s[|s| - 2..] == ".0" <==> s[|s| - 2..][1] == '0';
    TenthsRead(t);
    WholeReads(t / 10);
  }

  // ---------- the duration shown ----------

  function Quantized(v: real, align: bool): real {
    if align || v <= 10.0 then Round(10.0 * v) as real / 10.0 else Round(v) as real
  }

  function ShownDuration(d: real, align: bool): real {
    if d >= 3600.0 then Quantized(d / 3600.0, align) * 3600.0
    else if d >= 300.0 then Quantized(d / 60.0, align) * 60.0
    else Quantized(d, align)
  }

  lemma {:induction false} ReadUnit(s: string, u: char)
    ensures ReadDuration(s + [u]) == ReadNumber(s) * UnitSeconds(u)
  {
    hide ReadNumber, UnitSeconds;
    assert (s + [u])[..|s|] == s;
  }

  // What the text says.
  lemma FormatReads(d: real, align: bool)
    requires d >= 0.0
    ensures FormatDuration(d, align) != ""
    ensures ReadDuration(FormatDuration(d, align)) == ShownDuration(d, align)
  {
    hide ReadDuration, ReadNumber, Decimal, Tenths, RemoveSuffix, Round;
    var (value, unit) := if d >= 3600.0 then (d / 3600.0, 'h') else if d >= 300.0 then (d / 60.0, 'm') else (d, 's');
    RoundNatural(value);
    RoundNatural(10.0 * value);
    var (n, t) := (Round(value), Round(10.0 * value));
    TenthsRead(t);
    StrippedReads(t);
    WholeReads(n);
    ReadUnit(Tenths(t), unit);
    ReadUnit(Decimal(n), unit);
    ReadUnit(RemoveSuffix(Tenths(t), ".0"), unit);
  }

  lemma {:induction false} DecimalIs(n: nat)
    ensures Decimal(n) != "" && '.' !in Decimal(n)
    ensures Decimal(n)[0] == '0' <==> n == 0
  {
    if n >= 10 {
      DecimalIs(n / 10);
    }
  }

  // The text ends with the unit: hours from an hour on, minutes from five on,
  // seconds below.  Aligned, it has exactly one digit after the point; otherwise
  // none above ten, and below one unless that is zero.
  lemma FormatShape(d: real, align: bool)
    requires d >= 0.0
    ensures var text := FormatDuration(d, align);
            var value := if d >= 3600.0 then d / 3600.0 else if d >= 300.0 then d / 60.0 else d;
            && |text| >= 2
            && text[|text| - 1] == (if d >= 3600.0 then 'h' else if d >= 300.0 then 'm' else 's')
            && ('.' in text <==> align || (value <= 10.0 && Round(10.0 * value) % 10 != 0))
            && ('.' in text ==> |text| >= 4 && text[|text| - 3] == '.')
  {
    hide *;
    var (value, unit) := if d >= 3600.0 then (d / 3600.0, 'h') else if d >= 300.0 then (d / 60.0, 'm') else (d, 's');
    RoundNatural(value);
    RoundNatural(10.0 * value);
    var (n, t) := (Round(value), Round(10.0 * value));
    var body := if align then Tenths(t) else if value > 10.0 then Decimal(n) else RemoveSuffix(Tenths(t), ".0");
    FormatIs(d, align, body, unit);
    BodyShape(n, t, align, value > 10.0);
    UnitLast(body, unit);
  }

  lemma BodyShape(n: nat, t: nat, align: bool, big: bool)
    ensures var body := if align then Tenths(t) else if big then Decimal(n) else RemoveSuffix(Tenths(t), ".0");
            && body != "" && ('.' in body <==> align || (!big && t % 10 != 0))
            && ('.' in body ==> |body| >= 3 && body[|body| - 2] == '.')
  {
    StrippedReads(t);
    DecimalIs(n);
    DecimalIs(t / 10);
    TenthsPoint(t);
    hide *;
  }

  lemma FormatIs(d: real, align: bool, body: string, unit: char)
    requires d >= 0.0
    requires unit == if d >= 3600.0 then 'h' else if d >= 300.0 then 'm' else 's'
    requires var value := if d >= 3600.0 then d / 3600.0 else if d >= 300.0 then d / 60.0 else d;
             && Round(value) >= 0 && Round(10.0 * value) >= 0
             && body == if align then Tenths(Round(10.0 * value))
                        else if value > 10.0 then Decimal(Round(value))
                        else RemoveSuffix(Tenths(Round(10.0 * value)), ".0")
    ensures FormatDuration(d, align) == body + [unit]
  {
    hide Round, Decimal, Tenths, RemoveSuffix;
  }

  lemma UnitLast(body: string, unit: char)
    requires body != "" && unit != '.'
    ensures '.' in body + [unit] <==> '.' in body
    ensures (body + [unit])[|body|] == unit
    ensures |body| >= 2 ==> (body + [unit])[|body| - 2] == body[|body| - 2]
  {}

  lemma TenthsPoint(t: nat)
    ensures |Tenths(t)| >= 3 && '.' in Tenths(t) && Tenths(t)[|Tenths(t)| - 2] == '.'
  {}

  lemma {:induction false} QuantizedMonotone(v: real, w: real, align: bool)
    requires v <= w
    ensures Quantized(v, align) <= Quantized(w, align)
  {
    RoundMonotone(v, w);
    RoundMonotone(10.0 * v, 10.0 * w);
    RoundInt(10);
    RoundInt(100);
    if v <= 10.0 < w {
      RoundMonotone(10.0 * v, 100.0);
      RoundMonotone(10.0, w);
    }
  }

  lemma {:induction false} QuantizedInt(n: int, align: bool)
    ensures Quantized(n as real, align) == n as real
  {
    RoundInt(n);
    RoundInt(10 * n);
    assert 10.0 * (n as real) == (10 * n) as real;
  }

  // A longer duration never reads as a shorter one, whatever units the two
  // are shown in.
  lemma {:induction false} ShownMonotone(d: real, e: real, align: bool)
    requires 0.0 <= d <= e
    ensures ReadDuration(FormatDuration(d, align)) <= ReadDuration(FormatDuration(e, align))
  {
    hide Quantized, FormatDuration, ReadDuration;
    FormatReads(d, align);
    FormatReads(e, align);
    QuantizedInt(1, align);
    QuantizedInt(5, align);
    QuantizedInt(60, align);
    QuantizedInt(300, align);
    if e >= 3600.0 {
      QuantizedMonotone(1.0, e / 3600.0, align);
      if d >= 3600.0 { QuantizedMonotone(d / 3600.0, e / 3600.0, align); }
    }
    if e >= 300.0 {
      QuantizedMonotone(5.0, e / 60.0, align);
      if d >= 300.0 { QuantizedMonotone(d / 60.0, e / 60.0, align); }
    }
    if 300.0 <= d <= 3600.0 { QuantizedMonotone(d / 60.0, 60.0, align); }
    if d <= 300.0 { QuantizedMonotone(d, 300.0, align); }
    QuantizedMonotone(d, e, align);
  }

  // The unaligned text is within a twentieth of any duration of a second or more.
  lemma ShownClose(d: real)
    requires d >= 1.0
    ensures var shown := ReadDuration(FormatDuration(d, false));
            d - d / 20.0 <= shown <= d + d / 20.0
  {
    FormatReads(d, false);
    var v := if d >= 3600.0 then d / 3600.0 else if d >= 300.0 then d / 60.0 else d;
    assert v >= 1.0;
    QuantizedClose(v);
  }

  // The aligned text is within half a tenth of the unit.
  lemma ShownAligned(d: real)
    requires d >= 0.0
    ensures var shown := ReadDuration(FormatDuration(d, true));
            var unit := if d >= 3600.0 then 3600.0 else if d >= 300.0 then 60.0 else 1.0;
            d - unit / 20.0 <= shown <= d + unit / 20.0
  {
    FormatReads(d, true);
    RoundNear(10.0 * (if d >= 3600.0 then d / 3600.0 else if d >= 300.0 then d / 60.0 else d));
    hide FormatDuration, ReadDuration, Round;
  }

  lemma {:induction false} QuantizedClose(v: real)
    requires v >= 1.0
    ensures v - v / 20.0 <= Quantized(v, false) <= v + v / 20.0
  {
    RoundNear(v);
    RoundNear(10.0 * v);
  }
}
