/** Turning a colour into the three integers of a Netpbm "P3" pixel line:
    `writeColor` of include/Util.h (gamma 2, clamped) and the older
    `write_color` of include/color.h (unclamped), and the decimal text both
    write. */
module Encoding {
  import opened Outcomes
  import opened Numeric
  import opened Vectors
  import opened Intervals

  /** The three integers written for one pixel. */
  datatype Rgb = Rgb(r: int, g: int, b: int)

  /** `linearToGamma`: the square root of a positive component, 0 otherwise. */
  function LinearToGamma(lib: MathLib, x: real): (g: real)
    ensures x <= 0.0 ==> g == 0.0
    ensures lib.Lawful() && x > 0.0 ==> 0.0 <= g && g * g == x
  {
    if x > 0.0 then lib.sqrt(x) else 0.0
  }

  /** The `intensity` interval of `writeColor`: [0, 1 - 1e-3]. */
  const Intensity: Interval := Interval(Finite(0.0), Finite(0.999))

  /** `intensity.clamp(x)`. */
  function ClampIntensity(x: real): (c: real)
    ensures 0.0 <= c <= 0.999
    ensures Intensity.Contains(x) ==> c == x
    ensures x < 0.0 ==> c == 0.0
    ensures x > 0.999 ==> c == 0.999
  {
    Intensity.Clamp(x).value
  }

  /** One channel of `writeColor`: gamma, clamp, scale by 256, truncate. */
  function GammaByte(lib: MathLib, x: real): (b: int)
    ensures 0 <= b <= 255
    ensures x <= 0.0 ==> b == 0
  {
    Trunc(256.0 * ClampIntensity(LinearToGamma(lib, x)))
  }

  /** `writeColor`: the three bytes written for a pixel colour. */
  function WriteColor(lib: MathLib, c: Vec3): (rgb: Rgb)
    ensures 0 <= rgb.r <= 255 && 0 <= rgb.g <= 255 && 0 <= rgb.b <= 255
    ensures c.x <= 0.0 ==> rgb.r == 0
    ensures c.y <= 0.0 ==> rgb.g == 0
    ensures c.z <= 0.0 ==> rgb.b == 0
  {
    Rgb(GammaByte(lib, c.x), GammaByte(lib, c.y), GammaByte(lib, c.z))
  }

  /** With a lawful square root the gamma transform is monotone. */
  lemma LinearToGammaMonotone(lib: MathLib, x: real, y: real)
    requires lib.Lawful() && x <= y
    ensures LinearToGamma(lib, x) <= LinearToGamma(lib, y)
  {
    if x > 0.0 {
      SqrtMonotone(lib, x, y);
    } else if y > 0.0 {
      assert 0.0 <= lib.sqrt(y);
    }
  }

  lemma ClampIntensityMonotone(x: real, y: real)
    requires x <= y
    ensures ClampIntensity(x) <= ClampIntensity(y)
  {
    ClampMonotone(Intensity, x, y);
  }

  /** Each byte of `writeColor` is nondecreasing in its channel. */
  lemma GammaByteMonotone(lib: MathLib, x: real, y: real)
    requires lib.Lawful() && x <= y
    ensures GammaByte(lib, x) <= GammaByte(lib, y)
  {
    LinearToGammaMonotone(lib, x, y);
    ClampIntensityMonotone(LinearToGamma(lib, x), LinearToGamma(lib, y));
    TruncMonotone(256.0 * ClampIntensity(LinearToGamma(lib, x)), 256.0 * ClampIntensity(LinearToGamma(lib, y)));
  }

  /** `writeColor` is monotone channel by channel. */
  lemma WriteColorMonotone(lib: MathLib, c: Vec3, d: Vec3)
    requires lib.Lawful() && c.x <= d.x && c.y <= d.y && c.z <= d.z
    ensures WriteColor(lib, c).r <= WriteColor(lib, d).r
    ensures WriteColor(lib, c).g <= WriteColor(lib, d).g
    ensures WriteColor(lib, c).b <= WriteColor(lib, d).b
  {
    GammaByteMonotone(lib, c.x, d.x);
    GammaByteMonotone(lib, c.y, d.y);
    GammaByteMonotone(lib, c.z, d.z);
  }

  /** Black is written as 0 0 0 and white, through the clamp at 0.999, as 255 255 255. */
  lemma WriteColorExtremes(lib: MathLib)
    requires lib.Lawful()
    ensures WriteColor(lib, BLACK) == Rgb(0, 0, 0)
    ensures WriteColor(lib, WHITE) == Rgb(255, 255, 255)
  {
    SqrtOfSquare(lib, 1.0);
    assert LinearToGamma(lib, 1.0) == 1.0;
    assert ClampIntensity(1.0) == 0.999;
    assert Trunc(256.0 * 0.999) == 255;
  }

  // ---------------------------------------------------------------- write_color

  /** One channel of `write_color`: `int(255.999 * x)`, with no clamp. */
  function UnclampedByte(x: real): (b: int)
    ensures 0.0 <= x <= 1.0 ==> 0 <= b <= 255
    ensures x == 0.0 ==> b == 0
    ensures x == 1.0 ==> b == 255
  {
    Trunc(255.999 * x)
  }

  /** `write_color`: the three integers written for a pixel colour. */
  function WriteColorUnclamped(c: Vec3): (rgb: Rgb)
    ensures 0.0 <= c.x <= 1.0 ==> 0 <= rgb.r <= 255
    ensures 0.0 <= c.y <= 1.0 ==> 0 <= rgb.g <= 255
    ensures 0.0 <= c.z <= 1.0 ==> 0 <= rgb.b <= 255
    ensures c.x == 0.0 ==> rgb.r == 0
    ensures c.y == 0.0 ==> rgb.g == 0
    ensures c.z == 0.0 ==> rgb.b == 0
  {
    Rgb(UnclampedByte(c.x), UnclampedByte(c.y), UnclampedByte(c.z))
  }

  /** The byte of `write_color` is nondecreasing in its channel. */
  lemma UnclampedByteMonotone(x: real, y: real)
    requires x <= y
    ensures UnclampedByte(x) <= UnclampedByte(y)
  {
    TruncMonotone(255.999 * x, 255.999 * y);
  }

  /** Without a clamp, channels outside [0, 1] leave the byte range: a
      channel at least 1/255.999 above 1 gives more than 255, and one at or
      below -1 gives a negative value. */
  lemma UnclampedByteOutOfRange(x: real)
    ensures x >= 1.0 / 255.999 + 1.0 ==> UnclampedByte(x) > 255
    ensures x <= -1.0 ==> UnclampedByte(x) < 0
    ensures UnclampedByte(2.0) == 511
    ensures UnclampedByte(-1.0) == -255
  {
    if x >= 1.0 / 255.999 + 1.0 {
      assert 255.999 * x >= 256.999;
    }
  }

  // ---------------------------------------------------------------- decimal text

  /** The decimal digits of `n`, most significant first, without leading zeros. */
  function NatText(n: nat): (s: string)
    ensures |s| >= 1
    ensures forall i :: 0 <= i < |s| ==> '0' <= s[i] <= '9'
    ensures n > 0 ==> s[0] != '0'
    decreases n
  {
    if n < 10 then [Digit(n)] else NatText(n / 10) + [Digit(n % 10)]
  }

  function Digit(d: nat): (c: char)
    requires d < 10
    ensures '0' <= c <= '9'
    ensures d > 0 ==> c != '0'
  {
    "0123456789"[d]
  }

  /** The value of a string of decimal digits. */
  function DigitsValue(s: string): nat
    requires forall i :: 0 <= i < |s| ==> '0' <= s[i] <= '9'
  {
    if |s| == 0 then 0 else 10 * DigitsValue(s[..|s| - 1]) + (s[|s| - 1] as int - '0' as int)
  }

  lemma DigitValue(d: nat)
    requires d < 10
    ensures Digit(d) as int - '0' as int == d
  {
  }

  /** Reading the digits back gives the number. */
  lemma {:induction false} NatTextRoundTrip(n: nat)
    ensures DigitsValue(NatText(n)) == n
    decreases n
  {
    var s := NatText(n);
    if n < 10 {
      DigitValue(n);
      assert s[..0] == [];
    } else {
      NatTextRoundTrip(n / 10);
      DigitValue(n % 10);
      assert s[..|s| - 1] == NatText(n / 10);
    }
  }

  /** `out << n` for an `int`. */
  function IntText(n: int): (s: string)
    ensures |s| >= 1
    ensures forall i :: 0 <= i < |s| ==> s[i] == '-' || '0' <= s[i] <= '9'
    ensures forall i :: 1 <= i < |s| ==> '0' <= s[i] <= '9'
    ensures n < 0 <==> s[0] == '-'
  {
    if n < 0 then "-" + NatText(-n) else NatText(n)
  }

  /** The shape of what `IntText` writes: an optional minus sign followed
      by digits. */
  predicate IsIntText(s: string)
  {
    |s| >= 1 && (s[0] == '-' || '0' <= s[0] <= '9') &&
    forall i :: 1 <= i < |s| ==> '0' <= s[i] <= '9'
  }

  /** Parsing what `IntText` writes. */
  function ParseInt(s: string): (n: int)
    requires IsIntText(s)
  {
    if s[0] == '-' then -(DigitsValue(s[1..]) as int) else DigitsValue(s)
  }

  /** Every integer written can be read back unambiguously. */
  lemma IntTextRoundTrip(n: int)
    ensures ParseInt(IntText(n)) == n
  {
    if n < 0 {
      NatTextRoundTrip(-n);
      assert IntText(n)[1..] == NatText(-n);
    } else {
      NatTextRoundTrip(n);
    }
  }

  /** The line written for a pixel: the three integers separated by single
      spaces and ended by a newline. */
  function PixelText(c: Rgb): (s: string)
    ensures |s| >= 6 && s[|s| - 1] == '\n'
  {
    IntText(c.r) + " " + IntText(c.g) + " " + IntText(c.b) + "\n"
  }

  /** No separator occurs inside a written integer, so the line splits back
      into exactly the three values written. */
  lemma PixelTextFields(c: Rgb)
    ensures forall i :: 0 <= i < |IntText(c.r)| ==> IntText(c.r)[i] != ' ' && IntText(c.r)[i] != '\n'
    ensures forall i :: 0 <= i < |IntText(c.g)| ==> IntText(c.g)[i] != ' ' && IntText(c.g)[i] != '\n'
    ensures forall i :: 0 <= i < |IntText(c.b)| ==> IntText(c.b)[i] != ' ' && IntText(c.b)[i] != '\n'
    ensures ParseInt(IntText(c.r)) == c.r && ParseInt(IntText(c.g)) == c.g && ParseInt(IntText(c.b)) == c.b
  {
    IntTextRoundTrip(c.r);
    IntTextRoundTrip(c.g);
    IntTextRoundTrip(c.b);
  }

  /** The fields of a line, split at every space. */
  function Fields(s: string): (fields: seq<string>)
    ensures |fields| >= 1
    decreases |s|
  {
    if |s| == 0 then [""]
    else if s[0] == ' ' then [""] + Fields(s[1..])
    else var rest := Fields(s[1..]); [[s[0]] + rest[0]] + rest[1..]
  }

  predicate NoSpace(s: string)
  {
    forall i :: 0 <= i < |s| ==> s[i] != ' '
  }

  /** A field without spaces, followed by a space, is split off whole. */
  lemma {:induction false} FieldsSplitOff(a: string, t: string)
    requires NoSpace(a)
    ensures Fields(a + " " + t) == [a] + Fields(t)
    decreases |a|
  {
    if |a| == 0 {
      assert a + " " + t == [' '] + t;
      assert (a + " " + t)[1..] == t;
    } else {
      assert (a + " " + t)[1..] == a[1..] + " " + t;
      FieldsSplitOff(a[1..], t);
      assert [a[0]] + a[1..] == a;
    }
  }

  /** A string without spaces is a single field. */
  lemma {:induction false} FieldsOfNoSpace(a: string)
    requires NoSpace(a)
    ensures Fields(a) == [a]
    decreases |a|
  {
    if |a| > 0 {
      FieldsOfNoSpace(a[1..]);
      assert [a[0]] + a[1..] == a;
    }
  }

  /** Reading a pixel line: three integers separated by single spaces and
      ended by a newline; anything else is rejected. */
  function ParsePixelLine(s: string): (res: Option<Rgb>)
    ensures res.Some? ==> |s| >= 1 && s[|s| - 1] == '\n'
  {
    if |s| == 0 || s[|s| - 1] != '\n' then None
    else
      var f := Fields(s[..|s| - 1]);
      if |f| == 3 && IsIntText(f[0]) && IsIntText(f[1]) && IsIntText(f[2]) then
        Some(Rgb(ParseInt(f[0]), ParseInt(f[1]), ParseInt(f[2])))
      else None
  }

  /** What `IntText` writes is one field that `ParseInt` accepts. */
  lemma IntTextField(n: int)
    ensures NoSpace(IntText(n)) && IsIntText(IntText(n))
  {
  }

  lemma FieldsOfThree(a: string, b: string, d: string)
    requires NoSpace(a) && NoSpace(b) && NoSpace(d)
    ensures Fields(a + " " + (b + " " + d)) == [a, b, d]
  {
    FieldsSplitOff(a, b + " " + d);
    FieldsSplitOff(b, d);
    FieldsOfNoSpace(d);
  }

  lemma PixelTextBody(c: Rgb)
    ensures var s := PixelText(c);
            |s| >= 1 && s[..|s| - 1] == IntText(c.r) + " " + (IntText(c.g) + " " + IntText(c.b))
  {
    var s := PixelText(c);
    var body := IntText(c.r) + " " + IntText(c.g) + " " + IntText(c.b);
    assert s == body + "\n";
    assert s[..|s| - 1] == body;
  }

  /** The line written for a pixel reads back as that pixel's three values. */
  lemma PixelLineRoundTrip(c: Rgb)
    ensures ParsePixelLine(PixelText(c)) == Some(c)
  {
    var a, b, d := IntText(c.r), IntText(c.g), IntText(c.b);
    var s := PixelText(c);
    IntTextField(c.r);
    IntTextField(c.g);
    IntTextField(c.b);
    PixelTextBody(c);
    FieldsOfThree(a, b, d);
    IntTextRoundTrip(c.r);
    IntTextRoundTrip(c.g);
    IntTextRoundTrip(c.b);
    assert Fields(s[..|s| - 1]) == [a, b, d];
  }
}
