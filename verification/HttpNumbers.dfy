/** What `Content-Length` means: the conversion of the parser against the value of a numeral by positions. */
module HttpNumbers {
  import opened HttpTypes

  /** The ten decimal digits. */
  function Numeral(c: char): Option<nat> {
    match c
    case '0' => Some(0)
    case '1' => Some(1)
    case '2' => Some(2)
    case '3' => Some(3)
    case '4' => Some(4)
    case '5' => Some(5)
    case '6' => Some(6)
    case '7' => Some(7)
    case '8' => Some(8)
    case '9' => Some(9)
    case _ => None
  }

  lemma DigitIsNumeral(c: char)
    ensures IsDigit(c) <==> Numeral(c).Some?
    ensures IsDigit(c) ==> DigitValue(c) == Numeral(c).value
  {
  }

  function Pow10(k: nat): (p: nat)
    ensures p >= 1
  {
    if k == 0 then 1 else 10 * Pow10(k - 1)
  }

  predicate Digits(s: string) { forall i :: 0 <= i < |s| ==> Numeral(s[i]).Some? }

  /** The sum of every digit times the power of ten of its place, from the units on. */
  function PlaceValue(ds: string): nat
    requires Digits(ds)
    decreases |ds|
  {
    if ds == [] then 0 else PlaceValue(ds[1..]) + Numeral(ds[0]).value * Pow10(|ds| - 1)
  }

  /** Reading from the left with an accumulator gives the value by places. */
  lemma {:induction false} ReadIsPlaceValue(ds: string, rest: string, acc: nat)
    requires Digits(ds) && (rest != [] ==> Numeral(rest[0]).None?)
    ensures ReadDigits(ds + rest, acc) == acc * Pow10(|ds|) + PlaceValue(ds)
    decreases |ds|
  {
    hide Numeral, IsDigit, DigitValue;
    if ds == [] {
      assert ds + rest == rest;
      if rest != [] { DigitIsNumeral(rest[0]); }
    } else {
      var d := Numeral(ds[0]).value;
      DigitIsNumeral(ds[0]);
      assert (ds + rest)[1..] == ds[1..] + rest;
      ReadIsPlaceValue(ds[1..], rest, 10 * acc + d);
      Horner(acc, d, Pow10(|ds| - 1));
    }
  }

  lemma Horner(acc: nat, d: nat, p: nat)
    ensures (10 * acc + d) * p == acc * (10 * p) + d * p
  {
  }

  /** Blank, tab, line feed, carriage return, vertical tab, form feed. */
  predicate Blank(c: char) { c in " \t\n\r" || c as int == 11 || c as int == 12 }

  lemma BlankIsSpace(c: char)
    ensures IsSpace(c) <==> Blank(c)
    ensures Blank(c) ==> Numeral(c).None? && c != '+' && c != '-'
  {
  }

  predicate Spaces(s: string) { forall i :: 0 <= i < |s| ==> Blank(s[i]) }

  lemma {:induction false} SpacesSkipped(pad: string, s: string)
    requires Spaces(pad) && (s != [] ==> !Blank(s[0]))
    ensures SkipSpaces(pad + s) == s
    decreases |pad|
  {
    hide Blank, IsSpace;
    if pad == [] {
      assert pad + s == s;
      if s != [] { BlankIsSpace(s[0]); }
    } else {
      BlankIsSpace(pad[0]);
      assert (pad + s)[1..] == pad[1..] + s;
      SpacesSkipped(pad[1..], s);
    }
  }

  predicate Sign(sign: string) { sign == "" || sign == "+" || sign == "-" }

  /** A number in a text: white space, a sign, digits, and whatever follows them. */
  datatype Number = Number(pad: string, sign: string, digits: string, rest: string)
  {
    function Text(): string { pad + (sign + (digits + rest)) }

    /** The parts are as long as they can be. */
    predicate Ok() {
      && Spaces(pad) && Sign(sign) && Digits(digits)
      && (rest != [] ==> Numeral(rest[0]).None?)
      && (sign + digits == [] && rest != [] ==> !Blank(rest[0]) && rest[0] != '+' && rest[0] != '-')
    }

    function Value(): int
      requires Ok()
    {
      if sign == "-" then -(PlaceValue(digits) as int) else PlaceValue(digits)
    }
  }

  /** The conversion, exactly: a text in which a number is found yields its value by places if that fits into 32 bits
      with a sign, and an exception otherwise; so does a text without digits. */
  lemma StoiExactly(n: Number)
    requires n.Ok()
    ensures Stoi(n.Text()) == if n.digits != [] && -2147483648 <= n.Value() <= 2147483647 then Some(n.Value()) else None
  {
    hide SkipSpaces, ReadDigits, PlaceValue, Blank, IsSpace, IsDigit, Numeral;
    var u := n.digits + n.rest;
    var t := n.sign + u;
    if t != [] {
      BlankIsSpace(t[0]);
      DigitIsNumeral(t[0]);
    }
    SpacesSkipped(n.pad, t);
    assert n.sign == "" ==> t == u;
    assert n.sign != "" ==> t[1..] == u;
    if u != [] {
      DigitIsNumeral(u[0]);
      if n.digits != [] { DigitIsNoSign(u[0]); }
    }
    if n.digits == [] {
      assert u == n.rest;
    } else {
      ReadIsPlaceValue(n.digits, n.rest, 0);
    }
  }

  lemma DigitIsNoSign(c: char)
    requires Numeral(c).Some?
    ensures c != '+' && c != '-'
  {
  }

  function SpaceSpan(s: string): (k: nat)
    ensures k <= |s| && Spaces(s[..k]) && (k < |s| ==> !Blank(s[k]))
  {
    if s != [] && Blank(s[0]) then
      var k := SpaceSpan(s[1..]);
      assert s[..k + 1] == [s[0]] + s[1..][..k];
      k + 1
    else 0
  }

  function DigitSpan(s: string): (k: nat)
    ensures k <= |s| && Digits(s[..k]) && (k < |s| ==> Numeral(s[k]).None?)
  {
    if s != [] && Numeral(s[0]).Some? then
      var k := DigitSpan(s[1..]);
      assert s[..k + 1] == [s[0]] + s[1..][..k];
      k + 1
    else 0
  }

  function SignSpan(s: string): string {
    if s != [] && (s[0] == '+' || s[0] == '-') then [s[0]] else []
  }

  lemma SignCut(s: string)
    ensures Sign(SignSpan(s)) && SignSpan(s) <= s && s == SignSpan(s) + s[|SignSpan(s)|..]
    ensures SignSpan(s) == [] && s != [] ==> s[0] != '+' && s[0] != '-'
  {
  }

  /** Every text is of that shape. */
  lemma EveryText(s: string) returns (n: Number)
    ensures n.Ok() && n.Text() == s
  {
    hide Blank, Numeral, SpaceSpan, DigitSpan, Sign, Spaces, Digits, SignSpan, Number.Text;
    var k := SpaceSpan(s);
    var t := s[k..];
    var sign := SignSpan(t);
    SignCut(t);
    var u := t[|sign|..];
    var j := DigitSpan(u);
    n := Number(s[..k], sign, u[..j], u[j..]);
    TextCut(n, s, t, u);
  }

  lemma TextCut(n: Number, s: string, t: string, u: string)
    requires s == n.pad + t && t == n.sign + u && u == n.digits + n.rest
    ensures n.Text() == s && (n.sign + n.digits == [] ==> n.rest == t)
  {
  }

  /** The text holds the number `n`, written by places, and `n` fits into 32 bits with a sign. */
  ghost predicate Denotes(s: string, n: int) {
    && -2147483648 <= n <= 2147483647
    && exists t: Number :: t.Ok() && t.digits != [] && t.Text() == s && t.Value() == n
  }

  lemma DenotesExactly(s: string, n: int)
    ensures Denotes(s, n) <==> Stoi(s) == Some(n)
  {
    hide Stoi, Number.Ok, Number.Text, Number.Value;
    var t := EveryText(s);
    StoiExactly(t);
    if Denotes(s, n) {
      var u: Number :| u.Ok() && u.digits != [] && u.Text() == s && u.Value() == n;
      StoiExactly(u);
    }
  }

  // ----- decimal numerals

  lemma {:induction false} DecimalDigits(n: nat)
    ensures Decimal(n) != [] && Digits(Decimal(n)) && PlaceValue(Decimal(n)) == n
    decreases n
  {
    if n < 10 {
      assert Decimal(n)[1..] == [];
    } else {
      DecimalDigits(n / 10);
      PlaceValueSnoc(Decimal(n / 10), ('0' as int + n % 10) as char);
    }
  }

  lemma {:induction false} PlaceValueSnoc(ds: string, c: char)
    requires Digits(ds) && Numeral(c).Some?
    ensures Digits(ds + [c]) && PlaceValue(ds + [c]) == 10 * PlaceValue(ds) + Numeral(c).value
    decreases |ds|
  {
    if ds == [] {
      assert [] + [c] == [c] && [c][1..] == [];
    } else {
      var p := Pow10(|ds| - 1);
      assert (ds + [c])[1..] == ds[1..] + [c];
      PlaceValueSnoc(ds[1..], c);
      var d := Numeral(ds[0]).value;
      assert d * (10 * p) == 10 * (d * p);
    }
  }

  /** What is printed is read back, up to the largest 32-bit number. */
  lemma StoiOfToString(n: nat)
    ensures Stoi(ToString(n)) == if n <= 2147483647 then Some(n as int) else None
  {
    hide Decimal, Stoi;
    DecimalDigits(n);
    var m := Number("", "", Decimal(n), "");
    assert m.Text() == Decimal(n);
    StoiExactly(m);
  }

  /** Some numerals. */
  lemma Numerals()
    ensures Stoi("10") == Some(10) && Stoi("+072") == Some(72) && Stoi(" \t-9x") == Some(-9) && Stoi("+") == None
  {
    hide Stoi;
    SmallValues();
    var a, b := Number("", "", "10", ""), Number("", "+", "072", "");
    var c, d := Number(" \t", "-", "9", "x"), Number("", "+", "", "");
    StoiExactly(a);
    StoiExactly(b);
    StoiExactly(c);
    StoiExactly(d);
    assert a.Text() == "10" && b.Text() == "+072" && c.Text() == " \t-9x" && d.Text() == "+";
  }

  lemma SmallValues()
    ensures PlaceValue("10") == 10 && PlaceValue("072") == 72 && PlaceValue("9") == 9
  {
    assert "10"[1..] == "0" && "0"[1..] == "" && "9"[1..] == "";
    assert "072"[1..] == "72" && "72"[1..] == "2" && "2"[1..] == "";
  }
}
