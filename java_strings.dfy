/** The two pieces of the Java platform that Author and Book rely on: the
    conversion of a possibly-null String that string concatenation performs,
    and Integer.parseInt on 32-bit integers. */
module JavaStrings {
  import opened Wrappers

  /** The exceptions the core can raise. */
  datatype JavaError = NullPointer | NumberFormat

  const INT_MIN: int := -0x8000_0000
  const INT_MAX: int := 0x7fff_ffff

  predicate InInt32(n: int) {
    INT_MIN <= n <= INT_MAX
  }

  /** String concatenation in Java renders a null String as the text "null"
      and any other String as itself, so the rendering "null" stands both for
      an unset value and for the text "null". */
  function Str(s: Option<string>): (r: string)
    ensures s.Some? ==> r == s.value
    ensures r == "null" <==> s == None || s == Some("null")
  {
    match s
    case None => "null"
    case Some(v) => v
  }

  predicate IsDigit(c: char) {
    '0' <= c <= '9'
  }

  predicate AllDigits(s: string) {
    forall i :: 0 <= i < |s| ==> IsDigit(s[i])
  }

  function DigitValue(c: char): nat
    requires IsDigit(c)
  {
    (c as int) - ('0' as int)
  }

  function DigitChar(d: nat): char
    requires d < 10
  {
    ('0' as int + d) as char
  }

  /** The value of a sequence of decimal digits, read most significant first. */
  function DigitsValue(ds: string): nat
    requires AllDigits(ds)
    decreases |ds|
  {
    if ds == [] then 0 else DigitsValue(ds[..|ds| - 1]) * 10 + DigitValue(ds[|ds| - 1])
  }

  /** The length of the optional leading sign that Integer.parseInt accepts. */
  function SignLength(s: string): nat {
    if |s| > 0 && (s[0] == '-' || s[0] == '+') then 1 else 0
  }

  /** Integer.parseInt(s) in base 10: an optional '-' or '+', then one or more
      ASCII digits, denoting a value in the 32-bit range; anything else throws
      NumberFormatException. */
  function ParseInt(s: string): (r: Result<int, JavaError>)
    ensures r.Err? ==> r.error == NumberFormat
    ensures r.Ok? ==> InInt32(r.value)
    ensures r.Ok? ==> SignLength(s) < |s|
    ensures r.Ok? ==> forall i :: SignLength(s) <= i < |s| ==> IsDigit(s[i])
    ensures r.Ok? && r.value < 0 ==> s[0] == '-'
  {
    var digits := s[SignLength(s)..];
    if |digits| == 0 || !AllDigits(digits) then
      Err(NumberFormat)
    else
      var magnitude: int := DigitsValue(digits);
      var v := if s[0] == '-' then -magnitude else magnitude;
      if InInt32(v) then Ok(v) else Err(NumberFormat)
  }

  /** Decimal rendering of a natural number, without leading zeros. */
  function ShowNat(n: nat): string
    decreases n
  {
    if n < 10 then [DigitChar(n)] else ShowNat(n / 10) + [DigitChar(n % 10)]
  }

  /** Decimal rendering of an integer, as Integer.toString produces it. */
  function Show(n: int): string {
    if n < 0 then "-" + ShowNat(-n) else ShowNat(n)
  }

  /** A numeral in the form Integer.toString produces: no '+', no leading zero, no "-0". */
  predicate IsCanonical(s: string) {
    s == "0" || (SignLength(s) < |s| && (|s| > 0 ==> s[0] != '+') && s[SignLength(s)] != '0')
  }

  lemma {:induction false} ShowNatDigits(n: nat)
    ensures |ShowNat(n)| > 0 && AllDigits(ShowNat(n))
    ensures DigitsValue(ShowNat(n)) == n
    ensures n > 0 ==> ShowNat(n)[0] != '0'
    decreases n
  {
    if n >= 10 {
      var p := ShowNat(n / 10);
      ShowNatDigits(n / 10);
      var s := p + [DigitChar(n % 10)];
      assert s[..|s| - 1] == p;
      assert s[0] == p[0];
    }
  }

  /** Integer.parseInt reads back every rendering of a 32-bit integer. */
  lemma {:induction false} ParseShowRoundTrip(n: int)
    requires InInt32(n)
    ensures ParseInt(Show(n)) == Ok(n)
  {
    if n < 0 {
      ShowNatDigits(-n);
      var s := Show(n);
      assert s[1..] == ShowNat(-n);
    } else {
      ShowNatDigits(n);
      assert IsDigit(Show(n)[0]);
      assert Show(n)[SignLength(Show(n))..] == ShowNat(n);
    }
  }

  lemma DivMod10(v: nat, d: nat)
    requires d < 10
    ensures (v * 10 + d) / 10 == v && (v * 10 + d) % 10 == d
  {
  }

  lemma {:induction false} ShowNatOfDigits(ds: string)
    requires |ds| > 0 && AllDigits(ds) && (|ds| > 1 ==> ds[0] != '0')
    ensures ShowNat(DigitsValue(ds)) == ds
    decreases |ds|
  {
    var c := ds[|ds| - 1];
    var p := ds[..|ds| - 1];
    var m := DigitsValue(ds);
    assert DigitChar(DigitValue(c)) == c;
    if |p| > 0 {
      ShowNatOfDigits(p);
      var v := DigitsValue(p);
      assert v != 0 by {
        assert p[0] == ds[0] && ShowNat(0) == "0";
      }
      assert m == v * 10 + DigitValue(c);
      DivMod10(v, DigitValue(c));
      assert ds == p + [c];
    }
  }

  // Every numeral Integer.parseInt accepts, not only the canonical ones: an
  // optional sign, any number of leading zeros, then a canonical magnitude.

  /** The signs Integer.parseInt accepts in front of the digits. */
  predicate IsSign(sign: string) {
    sign == "" || sign == "+" || sign == "-"
  }

  function Signed(sign: string, m: nat): int {
    if sign == "-" then -(m as int) else m
  }

  function Abs(v: int): nat {
    if v < 0 then -v else v
  }

  /** z copies of the digit '0'. */
  function Zeros(z: nat): string
    decreases z
  {
    if z == 0 then "" else "0" + Zeros(z - 1)
  }

  /** The number of leading zeros of a digit sequence that can be dropped
      without changing it to the empty sequence. */
  function LeadingZeros(ds: string): nat
    decreases |ds|
  {
    if |ds| > 1 && ds[0] == '0' then 1 + LeadingZeros(ds[1..]) else 0
  }

  /** The numeral sign, then z zeros, then the decimal rendering of m. */
  function Numeral(sign: string, z: nat, m: nat): string {
    sign + Zeros(z) + ShowNat(m)
  }

  lemma {:induction false} DigitsValueLeadingZero(ds: string)
    requires AllDigits(ds)
    ensures AllDigits("0" + ds) && DigitsValue("0" + ds) == DigitsValue(ds)
    decreases |ds|
  {
    var t := "0" + ds;
    assert forall i :: 0 < i < |t| ==> t[i] == ds[i - 1];
    if ds != [] {
      var p := ds[..|ds| - 1];
      DigitsValueLeadingZero(p);
      assert t[..|t| - 1] == "0" + p;
    } else {
      assert t[..0] == [];
    }
  }

  lemma {:induction false} DigitsValueZeros(z: nat, ds: string)
    requires AllDigits(ds)
    ensures AllDigits(Zeros(z) + ds) && DigitsValue(Zeros(z) + ds) == DigitsValue(ds)
    decreases z
  {
    if z > 0 {
      DigitsValueZeros(z - 1, ds);
      assert Zeros(z) == "0" + Zeros(z - 1);
      assert Zeros(z) + ds == "0" + (Zeros(z - 1) + ds);
      DigitsValueLeadingZero(Zeros(z - 1) + ds);
    } else {
      assert Zeros(z) + ds == ds;
    }
  }

  lemma {:induction false} SplitLeadingZeros(ds: string)
    requires |ds| > 0 && AllDigits(ds)
    ensures LeadingZeros(ds) < |ds|
    ensures ds == Zeros(LeadingZeros(ds)) + ds[LeadingZeros(ds)..]
    ensures |ds| - LeadingZeros(ds) > 1 ==> ds[LeadingZeros(ds)] != '0'
    decreases |ds|
  {
    if |ds| > 1 && ds[0] == '0' {
      var t := ds[1..];
      assert AllDigits(t) by {
        assert forall i :: 0 <= i < |t| ==> t[i] == ds[i + 1];
      }
      SplitLeadingZeros(t);
      var k := LeadingZeros(t);
      assert LeadingZeros(ds) == k + 1;
      assert ds[k + 1..] == t[k..];
      assert Zeros(k + 1) == "0" + Zeros(k);
      calc {
        Zeros(k + 1) + ds[k + 1..];
        ("0" + Zeros(k)) + t[k..];
        "0" + (Zeros(k) + t[k..]);
        "0" + t;
        ds;
      }
    } else {
      assert Zeros(0) + ds[0..] == ds;
    }
  }

  lemma NumeralSplit(sign: string, z: nat, m: nat)
    ensures Numeral(sign, z, m) == sign + (Zeros(z) + ShowNat(m))
  {
  }

  lemma ParseSignDigits(sign: string, ds: string)
    requires IsSign(sign) && |ds| > 0 && AllDigits(ds) && InInt32(Signed(sign, DigitsValue(ds)))
    ensures ParseInt(sign + ds) == Ok(Signed(sign, DigitsValue(ds)))
  {
    var s := sign + ds;
    assert IsDigit(ds[0]);
    assert s[|sign|] == ds[0];
    assert SignLength(s) == |sign|;
    assert s[|sign|..] == ds;
  }

  /** Integer.parseInt accepts every numeral made of a sign, leading zeros and
      a magnitude whose signed value is a 32-bit integer, and returns that value. */
  lemma {:induction false} ParseNumeral(sign: string, z: nat, m: nat)
    requires IsSign(sign) && InInt32(Signed(sign, m))
    ensures ParseInt(Numeral(sign, z, m)) == Ok(Signed(sign, m))
  {
    var ds := Zeros(z) + ShowNat(m);
    assert AllDigits(ds) && DigitsValue(ds) == m && |ds| > 0 by {
      ShowNatDigits(m);
      DigitsValueZeros(z, ShowNat(m));
    }
    ParseSignDigits(sign, ds);
    NumeralSplit(sign, z, m);
  }

  /** A non-empty digit sequence is its droppable leading zeros followed by
      the rendering of its value. */
  lemma DigitsForm(ds: string)
    requires |ds| > 0 && AllDigits(ds)
    ensures ds == Zeros(LeadingZeros(ds)) + ShowNat(DigitsValue(ds))
  {
    SplitLeadingZeros(ds);
    var z := LeadingZeros(ds);
    var rest := ds[z..];
    assert AllDigits(rest) by {
      assert forall i :: 0 <= i < |rest| ==> rest[i] == ds[z + i];
    }
    ShowNatOfDigits(rest);
    DigitsValueZeros(z, rest);
  }

  /** What an accepted numeral consists of: a sign and a non-empty digit
      sequence whose signed value is the result. */
  lemma ParseIntParts(s: string)
    requires ParseInt(s).Ok?
    ensures IsSign(s[..SignLength(s)]) && s == s[..SignLength(s)] + s[SignLength(s)..]
    ensures |s[SignLength(s)..]| > 0 && AllDigits(s[SignLength(s)..])
    ensures ParseInt(s).value == Signed(s[..SignLength(s)], DigitsValue(s[SignLength(s)..]))
  {
    var k := SignLength(s);
    assert forall i :: 0 <= i < |s[k..]| ==> s[k..][i] == s[k + i];
  }

  /** A canonical numeral that Integer.parseInt accepts is the rendering of its value. */
  lemma ParseCanonicalRoundTrip(s: string)
    requires IsCanonical(s) && ParseInt(s).Ok?
    ensures Show(ParseInt(s).value) == s
  {
    ParseIntParts(s);
    var k := SignLength(s);
    var sign, ds := s[..k], s[k..];
    assert ds[0] == s[k];
    ShowNatOfDigits(ds);
    var m := DigitsValue(ds);
    if sign == "-" {
      assert m != 0 by {
        assert ShowNat(0) == "0";
      }
      var v := ParseInt(s).value;
      assert v == -(m as int);
      assert Show(v) == "-" + ShowNat(m);
    } else {
      assert sign == "" && s == ds;
    }
  }

  /** Every numeral Integer.parseInt accepts has that form: its sign, then its
      droppable leading zeros, then the rendering of its magnitude. */
  lemma ParseIntForm(s: string)
    requires ParseInt(s).Ok?
    ensures IsSign(s[..SignLength(s)])
    ensures ParseInt(s).value == Signed(s[..SignLength(s)], Abs(ParseInt(s).value))
    ensures s == Numeral(s[..SignLength(s)], LeadingZeros(s[SignLength(s)..]), Abs(ParseInt(s).value))
  {
    var k := SignLength(s);
    var sign, ds := s[..k], s[k..];
    ParseIntParts(s);
    var m := DigitsValue(ds);
    assert Abs(ParseInt(s).value) == m;
    DigitsForm(ds);
    NumeralSplit(sign, LeadingZeros(ds), m);
  }

  /** Numerals beyond the canonical ones: a '+' sign, a leading zero and a
      negative zero are all accepted. */
  lemma NonCanonicalNumerals()
    ensures ParseInt("+1951") == Ok(1951)
    ensures ParseInt("01951") == Ok(1951)
    ensures ParseInt("-0") == Ok(0) && ParseInt("+0") == Ok(0)
  {
    assert Numeral("+", 0, 1951) == "+1951";
    ParseNumeral("+", 0, 1951);
    assert Numeral("", 1, 1951) == "01951";
    ParseNumeral("", 1, 1951);
    assert Numeral("-", 0, 0) == "-0";
    ParseNumeral("-", 0, 0);
    assert Numeral("+", 0, 0) == "+0";
    ParseNumeral("+", 0, 0);
  }
}
