/** The six-digit one-time password that the payment, password-reset and
    signup routes all draw as
    `Math.floor(100000 + Math.random() * 900000).toString()`.
    The random draw is a parameter: `Math.floor(Math.random() * 900000)`,
    an integer in [0, 900000). */
module OtpCode {
  import opened Common

  type OtpDraw = r: int | 0 <= r < 900000

  const OtpMin: nat := 100000
  const OtpMax: nat := 999999

  /** The OTP issued for a draw: six decimal digits without a leading zero,
      denoting a number in [100000, 999999]. */
  function GenerateOtp(draw: OtpDraw): (otp: string)
    ensures |otp| == 6 && AllDigits(otp) && otp[0] != '0'
    ensures OtpMin <= DigitsValue(otp) <= OtpMax
    ensures DigitsValue(otp) == OtpMin + draw
  {
    var n: nat := OtpMin + draw;
    assert Pow10(5) == 100000 && Pow10(6) == 1000000 by {
      assert Pow10(1) == 10;
      assert Pow10(2) == 100;
      assert Pow10(3) == 1000;
      assert Pow10(4) == 10000;
    }
    DecimalLength(n, 6);
    DecimalRoundTrip(n);
    Decimal(n)
  }

  /** Different draws give different OTPs: the OTP loses none of the draw. */
  lemma GenerateOtpInjective(d1: OtpDraw, d2: OtpDraw)
    requires GenerateOtp(d1) == GenerateOtp(d2)
    ensures d1 == d2
  {
  }

  /** An OTP is never the empty string, so a stored OTP is never falsy. */
  lemma GenerateOtpNonEmpty(draw: OtpDraw)
    ensures GenerateOtp(draw) != ""
  {
  }
}
