/** The application error of utils/AppError.js: a message, an HTTP status
    code, a `status` of "fail" for codes whose decimal text starts with '4'
    (client errors) and "error" otherwise, and the operational flag. */
module AppErrors {

  datatype ErrorStatus = Fail | Error

  datatype AppError = AppError(message: string, statusCode: int, status: ErrorStatus, isOperational: bool)

  function DigitChar(d: nat): (c: char)
    requires d < 10
  {
    "0123456789"[d]
  }

  /** Decimal text of a natural number, most significant digit first. */
  function Digits(n: nat): (s: string)
    ensures |s| >= 1
    decreases n
  {
    if n < 10 then [DigitChar(n)] else Digits(n / 10) + [DigitChar(n % 10)]
  }

  /** The template literal `${statusCode}` for an integer code. */
  function DecimalText(n: int): (s: string)
    ensures |s| >= 1
  {
    if n < 0 then "-" + Digits(-n) else Digits(n)
  }

  /** The value of `${statusCode}`.startsWith('4'). */
  predicate StartsWithFour(n: int) {
    DecimalText(n)[0] == '4'
  }

  /** `new AppError(message, statusCode)`. */
  function NewAppError(message: string, statusCode: int): (e: AppError)
    ensures e.message == message && e.statusCode == statusCode
    ensures e.isOperational
    ensures e.status == Fail <==> StartsWithFour(statusCode)
  {
    AppError(message, statusCode, if StartsWithFour(statusCode) then Fail else Error, true)
  }

  function Pow10(k: nat): (p: nat)
    ensures p >= 1
  {
    if k == 0 then 1 else 10 * Pow10(k - 1)
  }

  /** For a number with k+1 digits, the text starts with '4' exactly when the
      number lies in [4·10^k, 5·10^k). */
  lemma {:induction false} LeadingFourRange(n: nat, k: nat)
    requires Pow10(k) <= n < 10 * Pow10(k)
    ensures Digits(n)[0] == '4' <==> 4 * Pow10(k) <= n < 5 * Pow10(k)
  {
    if k == 0 {
      assert n < 10;
      assert Digits(n) == [DigitChar(n)];
      assert "0123456789"[4] == '4';
      if n != 4 {
        assert DigitChar(n) != '4' by {
          assert forall d :: 0 <= d < 10 && d != 4 ==> "0123456789"[d] != '4';
        }
      }
    } else {
      var p := Pow10(k - 1);
      assert Pow10(k) == 10 * p;
      assert n >= 10;
      var q := n / 10;
      assert q * 10 <= n < q * 10 + 10;
      assert p <= q < 10 * p;
      LeadingFourRange(q, k - 1);
      assert Digits(n)[0] == Digits(q)[0];
      assert 4 * p <= q <==> 40 * p <= n;
      assert q < 5 * p <==> n < 50 * p;
    }
  }

  /** The number of decimal digits of n, minus one. */
  function Magnitude(n: nat): (k: nat)
    ensures Pow10(k) <= n || n == 0
    ensures n < 10 * Pow10(k)
    decreases n
  {
    if n < 10 then 0 else 1 + Magnitude(n / 10)
  }

  /** `status` classification: a code is a "fail" exactly when it is a
      non-negative number lying in [4·10^k, 5·10^k) for some k — that is
      4, 40–49, 400–499, 4000–4999, … — and an "error" otherwise (every
      negative code, whose text starts with '-'). */
  lemma ClassifyStatus(message: string, statusCode: int)
    ensures NewAppError(message, statusCode).status == Fail <==>
      statusCode >= 0 && 4 * Pow10(Magnitude(statusCode)) <= statusCode < 5 * Pow10(Magnitude(statusCode))
  {
    if statusCode >= 0 {
      var k := Magnitude(statusCode);
      if statusCode == 0 {
        assert DecimalText(0) == "0";
        assert Pow10(0) == 1;
      } else {
        LeadingFourRange(statusCode, k);
      }
    }
  }

  /** For the three-digit codes HTTP uses, "fail" is exactly the 4xx range:
      400 and 404 give "fail", 500 gives "error". */
  lemma HttpCodeStatus(message: string, statusCode: int)
    requires 100 <= statusCode < 1000
    ensures NewAppError(message, statusCode).status == Fail <==> 400 <= statusCode < 500
    ensures NewAppError(message, statusCode).isOperational
  {
    assert Pow10(2) == 100;
    LeadingFourRange(statusCode, 2);
  }
}
