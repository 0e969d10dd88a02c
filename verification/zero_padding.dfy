/** Decimal formatting with left zero padding (`myToString`, which streams a
    number through `std::setw(width)` and `std::setfill('0')`). It names the
    per-camera trajectory files and labels the frames in the log. */
module ZeroPadding {

  predicate IsDigit(c: char) {
    '0' <= c <= '9'
  }

  predicate AllDigits(s: string) {
    forall i :: 0 <= i < |s| ==> IsDigit(s[i])
  }

  function DigitChar(d: nat): (c: char)
    requires d < 10
    ensures IsDigit(c)
    ensures c == '0' <==> d == 0
  {
    ('0' as int + d) as char
  }

  function DigitValue(c: char): (d: nat)
    requires IsDigit(c)
    ensures d < 10 && DigitChar(d) == c
  {
    c as int - '0' as int
  }

  /** The shortest decimal spelling of n: "0" for zero, otherwise no leading zero. */
  function Decimal(n: nat): (s: string)
    ensures |s| >= 1 && AllDigits(s)
    ensures s[0] == '0' <==> n == 0
    ensures n == 0 ==> s == "0"
    decreases n
  {
    if n < 10 then [DigitChar(n)] else Decimal(n / 10) + [DigitChar(n % 10)]
  }

  /** The value of a string of decimal digits, most significant first; "" reads as 0. */
  function Parse(s: string): (n: nat)
    requires AllDigits(s)
  {
    if s == [] then 0 else Parse(s[..|s| - 1]) * 10 + DigitValue(s[|s| - 1])
  }

  function Zeros(k: nat): (z: string)
    ensures |z| == k && forall i :: 0 <= i < k ==> z[i] == '0'
  {
    seq(k, _ => '0')
  }

  function Max(a: nat, b: nat): (m: nat) {
    if a < b then b else a
  }

  /** `myToString(i, width)`: the decimal digits of i, preceded by as many '0'
      as it takes to reach `width` characters. The field is a minimum width:
      a longer number is written in full. */
  function ZeroPadded(i: nat, width: nat): (s: string)
    ensures |s| == Max(width, |Decimal(i)|)
    ensures AllDigits(s)
    ensures s[|s| - |Decimal(i)|..] == Decimal(i)
    ensures forall j :: 0 <= j < |s| - |Decimal(i)| ==> s[j] == '0'
  {
    var digits := Decimal(i);
    if |digits| < width then Zeros(width - |digits|) + digits else digits
  }

  /** Drops every leading '0'. */
  function StripLeadingZeros(s: string): (t: string)
    ensures |t| <= |s| && t == s[|s| - |t|..]
    ensures forall j :: 0 <= j < |s| - |t| ==> s[j] == '0'
    ensures t != [] ==> t[0] != '0'
  {
    if s != [] && s[0] == '0' then StripLeadingZeros(s[1..]) else s
  }

  /** Reading back the digits of n gives n. */
  lemma {:induction false} ParseDecimal(n: nat)
    ensures Parse(Decimal(n)) == n
    decreases n
  {
    var s := Decimal(n);
    if n < 10 {
      assert s[..0] == [];
    } else {
      assert s[..|s| - 1] == Decimal(n / 10);
      ParseDecimal(n / 10);
    }
  }

  lemma {:induction false} ParseZeros(k: nat)
    ensures Parse(Zeros(k)) == 0
  {
    if k > 0 {
      assert Zeros(k)[..k - 1] == Zeros(k - 1);
      ParseZeros(k - 1);
    }
  }

  /** Leading zeros do not change the value of a digit string. */
  lemma {:induction false} ParseIgnoresLeadingZeros(k: nat, s: string)
    requires AllDigits(s)
    ensures AllDigits(Zeros(k) + s)
    ensures Parse(Zeros(k) + s) == Parse(s)
    decreases |s|
  {
    if s == [] {
      assert Zeros(k) + s == Zeros(k);
      ParseZeros(k);
    } else {
      var t := Zeros(k) + s;
      assert t[..|t| - 1] == Zeros(k) + s[..|s| - 1];
      ParseIgnoresLeadingZeros(k, s[..|s| - 1]);
    }
  }

  /** The padded string reads back as the number it was made from. */
  lemma ParsePadded(i: nat, width: nat)
    ensures Parse(ZeroPadded(i, width)) == i
  {
    var d := Decimal(i);
    ParseDecimal(i);
    if |d| < width {
      var padded := Zeros(width - |d|) + d;
      assert ZeroPadded(i, width) == padded;
      ParseIgnoresLeadingZeros(width - |d|, d);
    } else {
      assert ZeroPadded(i, width) == d;
    }
  }

  /** Stripping the padding leaves the shortest spelling (nothing at all for
      zero), and that reads back as the number. */
  lemma StripPadded(i: nat, width: nat)
    ensures StripLeadingZeros(ZeroPadded(i, width)) == (if i == 0 then "" else Decimal(i))
    ensures AllDigits(StripLeadingZeros(ZeroPadded(i, width)))
    ensures Parse(StripLeadingZeros(ZeroPadded(i, width))) == i
  {
    ParseDecimal(i);
  }

  /** Different numbers never share a padded spelling, whatever the widths. */
  lemma ZeroPaddedInjective(i: nat, j: nat, wi: nat, wj: nat)
    requires ZeroPadded(i, wi) == ZeroPadded(j, wj)
    ensures i == j
  {
    ParsePadded(i, wi);
    ParsePadded(j, wj);
  }

  /** Name of a camera's animated track and exported trajectory file suffix
      ("cam" followed by the two-digit index). */
  function CameraTrackName(camera: nat): (name: string) {
    "cam" + ZeroPadded(camera, 2)
  }

  /** Label printed for a frame (four-digit padded frame index). */
  function FrameLabel(frame: nat): (text: string) {
    ZeroPadded(frame, 4)
  }

  /** A number below 10^k has at most k digits. */
  lemma {:induction false} DecimalFits(n: nat, k: nat)
    requires k >= 1 && n < Pow10(k)
    ensures |Decimal(n)| <= k
    decreases k
  {
    if n >= 10 {
      assert Pow10(1) == 10;
      assert Pow10(k) == 10 * Pow10(k - 1);
      DecimalFits(n / 10, k - 1);
    }
  }

  function Pow10(k: nat): (p: nat)
    ensures p >= 1
  {
    if k == 0 then 1 else 10 * Pow10(k - 1)
  }

  /** Frame labels are four characters wide up to frame 9999 and wider after
      it, and every label reads back as its frame. */
  lemma FrameLabelShape(frame: nat)
    ensures |FrameLabel(frame)| >= 4
    ensures frame < 10000 ==> |FrameLabel(frame)| == 4
    ensures frame >= 10000 ==> |FrameLabel(frame)| > 4
    ensures Parse(FrameLabel(frame)) == frame
  {
    ParsePadded(frame, 4);
    if frame < 10000 {
      assert Pow10(4) == 10000;
      DecimalFits(frame, 4);
    } else {
      DecimalLong(frame, 4);
    }
  }

  /** A number at least 10^k has more than k digits. */
  lemma {:induction false} DecimalLong(n: nat, k: nat)
    requires n >= Pow10(k)
    ensures |Decimal(n)| > k
    decreases k
  {
    if k > 0 {
      assert n >= 10;
      DecimalLong(n / 10, k - 1);
    }
  }

  /** The per-camera trajectory file `<basename>.camNN.abc`. */
  function CameraExportFile(basename: string, camera: nat): (path: string) {
    basename + ".cam" + ZeroPadded(camera, 2) + ".abc"
  }

  /** Every camera of the rig gets its own track and its own file. */
  lemma CameraNamesDistinct(basename: string, a: nat, b: nat)
    requires a != b
    ensures CameraTrackName(a) != CameraTrackName(b)
    ensures CameraExportFile(basename, a) != CameraExportFile(basename, b)
  {
    var pa, pb := ZeroPadded(a, 2), ZeroPadded(b, 2);
    if CameraTrackName(a) == CameraTrackName(b) {
      assert pa == CameraTrackName(a)[3..];
      assert pb == CameraTrackName(b)[3..];
      ZeroPaddedInjective(a, b, 2, 2);
    }
    var fa, fb := CameraExportFile(basename, a), CameraExportFile(basename, b);
    var n := |basename| + 4;
    assert pa == fa[n..|fa| - 4];
    assert pb == fb[n..|fb| - 4];
    if fa == fb {
      ZeroPaddedInjective(a, b, 2, 2);
    }
  }
}
