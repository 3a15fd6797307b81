/**
 * The numeric conversions the store relies on: `std::stoi`, reading an
 * `int` with `>>`, `std::to_string`, the zero-padded two-digit clock fields
 * and `std::string::substr`.
 */
module Numbers {
  import opened Wrappers
  import opened Text

  predicate AllDigits(s: string)
  {
    forall i :: 0 <= i < |s| ==> IsDigit(s[i])
  }

  /** Length of the longest prefix of `s` that is whitespace. */
  function SpaceRun(s: string): (n: nat)
    ensures n <= |s|
    ensures forall i :: 0 <= i < n ==> IsSpace(s[i])
    ensures n < |s| ==> !IsSpace(s[n])
  {
    if s != [] && IsSpace(s[0]) then 1 + SpaceRun(s[1..]) else 0
  }

  /** Length of the longest prefix of `s` that is decimal digits. */
  function DigitRun(s: string): (n: nat)
    ensures n <= |s|
    ensures AllDigits(s[..n])
    ensures n < |s| ==> !IsDigit(s[n])
  {
    if s != [] && IsDigit(s[0]) then 1 + DigitRun(s[1..]) else 0
  }

  function DigitValue(c: char): nat
    requires IsDigit(c)
  {
    c as int - '0' as int
  }

  function DigitChar(d: nat): (c: char)
    requires d < 10
    ensures IsDigit(c) && DigitValue(c) == d
  {
    ('0' as int + d) as char
  }

  /** Value of a decimal digit string, most significant digit first. */
  function DigitsValue(s: string): nat
    requires AllDigits(s)
  {
    if s == [] then 0 else DigitsValue(s[..|s| - 1]) * 10 + DigitValue(s[|s| - 1])
  }

  /** `s` without one leading '+' or '-'. */
  function Unsigned(s: string): string
  {
    if s != [] && (s[0] == '+' || s[0] == '-') then s[1..] else s
  }

  /**
   * `std::stoi`: skips leading whitespace, takes an optional sign and the
   * longest run of digits after it, and ignores whatever follows. No digit
   * there is `invalid_argument`, modelled as None.
   */
  function Stoi(s: string): (r: Option<int>)
    ensures r.Some? <==> DigitRun(Unsigned(s[SpaceRun(s)..])) > 0
  {
    var t := s[SpaceRun(s)..];
    var u := Unsigned(t);
    var n := DigitRun(u);
    if n == 0 then None
    else
      var v: int := DigitsValue(u[..n]);
      if t[0] == '-' then Some(-v) else Some(v)
  }

  /**
   * Reading an `int` token with `>>`: the token must be an optional sign
   * followed by digits and nothing else.
   */
  function ReadInt(token: string): (r: Option<int>)
    ensures r.Some? <==> Unsigned(token) != [] && AllDigits(Unsigned(token))
  {
    var u := Unsigned(token);
    if u == [] || !AllDigits(u) then None
    else
      var v: int := DigitsValue(u);
      if token[0] == '-' then Some(-v) else Some(v)
  }

  /** `std::to_string` of a non-negative value: "0", or digits without a leading zero. */
  function NatToString(n: nat): (r: string)
    ensures r != [] && AllDigits(r)
    ensures n == 0 ==> r == "0"
    ensures n > 0 ==> r[0] != '0'
  {
    if n < 10 then [DigitChar(n)] else NatToString(n / 10) + [DigitChar(n % 10)]
  }

  /** `std::to_string` of any value. */
  function IntToString(i: int): (r: string)
    ensures r != [] && NoWhitespace(r)
  {
    if i < 0 then "-" + NatToString(-i) else NatToString(i)
  }

  /** How the store writes an hour or a minute: a '0' in front of values below 10. */
  function TwoDigits(n: int): string
  {
    (if n < 10 then "0" else "") + IntToString(n)
  }

  /** `std::string::substr(pos, len)`: None where the library throws `out_of_range`. */
  function Substr(s: string, pos: nat, len: nat): (r: Option<string>)
    ensures r.Some? <==> pos <= |s|
    ensures r.Some? ==> |r.value| == (if pos + len <= |s| then len else |s| - pos)
    ensures r.Some? ==> r.value <= s[pos..]
  {
    if pos > |s| then None
    else if pos + len <= |s| then Some(s[pos..pos + len])
    else Some(s[pos..])
  }

  /** Reading back what `to_string` wrote gives the value. */
  lemma {:induction false} DigitsValueOfNatToString(n: nat)
    ensures DigitsValue(NatToString(n)) == n
  {
    if n >= 10 {
      var p := NatToString(n / 10);
      var s := p + [DigitChar(n % 10)];
      assert s[..|s| - 1] == p;
      DigitsValueOfNatToString(n / 10);
    }
  }

  /** A digit string leaves nothing for `stoi` or `>>` to skip or to stop at. */
  lemma DigitRunOfDigits(s: string)
    requires AllDigits(s)
    ensures DigitRun(s) == |s|
  {
  }

  /** `stoi` reads back every value `to_string` writes. */
  lemma StoiOfIntToString(i: int)
    ensures Stoi(IntToString(i)) == Some(i)
  {
    var s := IntToString(i);
    var m := if i < 0 then -i else i;
    var d := NatToString(m);
    assert SpaceRun(s) == 0;
    assert s[SpaceRun(s)..] == s;
    assert Unsigned(s) == d;
    DigitRunOfDigits(d);
    assert d[..|d|] == d;
    DigitsValueOfNatToString(m);
  }

  /** `>>` reads back every value `to_string` writes. */
  lemma ReadIntOfIntToString(i: int)
    ensures ReadInt(IntToString(i)) == Some(i)
  {
    var m := if i < 0 then -i else i;
    assert Unsigned(IntToString(i)) == NatToString(m);
    DigitsValueOfNatToString(m);
  }

  /** A clock field in range is written as exactly two digits that read back as the value. */
  lemma TwoDigitsRoundTrip(n: int)
    requires 0 <= n < 100
    ensures |TwoDigits(n)| == 2 && AllDigits(TwoDigits(n))
    ensures Stoi(TwoDigits(n)) == Some(n)
  {
    var s := TwoDigits(n);
    if n < 10 {
      assert s == ['0', DigitChar(n)];
    } else {
      assert NatToString(n / 10) == [DigitChar(n / 10)];
      assert s == [DigitChar(n / 10), DigitChar(n % 10)];
    }
    TwoDigitValue(s);
  }

  lemma TwoDigitValue(s: string)
    requires |s| == 2 && AllDigits(s)
    ensures Stoi(s) == Some(DigitValue(s[0]) * 10 + DigitValue(s[1]))
  {
    assert SpaceRun(s) == 0 && s[0..] == s && Unsigned(s) == s;
    DigitRunOfDigits(s);
    assert s[..2] == s;
    assert DigitsValue(s[..1]) == DigitValue(s[0]) by {
      assert s[..1][..0] == [];
    }
  }

  /** `stoi` throws when the text starts with neither whitespace, a sign nor a digit. */
  lemma StoiRejectsNonNumeric(s: string)
    requires s == [] || (!IsSpace(s[0]) && !IsDigit(s[0]) && s[0] != '+' && s[0] != '-')
    ensures Stoi(s) == None
  {
    assert SpaceRun(s) == 0;
    assert s[0..] == s;
  }

  /** `stoi` stops at the first character after the digits ("12abc" reads as 12). */
  lemma StoiReadsDigitPrefix(d: string, rest: string)
    requires d != [] && AllDigits(d)
    requires rest == [] || !IsDigit(rest[0])
    ensures Stoi(d + rest) == Some(DigitsValue(d))
  {
    var s := d + rest;
    assert SpaceRun(s) == 0 && s[0..] == s && Unsigned(s) == s;
    assert DigitRun(s) == |d| by {
      DigitRunPrefix(d, rest);
    }
    assert s[..|d|] == d;
  }

  /**
   * `stoi` on any text of the shape whitespace, optional sign, digits, then
   * anything not starting with a digit: the signed value of the digits.
   */
  lemma StoiOfShape(ws: string, sign: string, d: string, rest: string)
    requires forall i :: 0 <= i < |ws| ==> IsSpace(ws[i])
    requires sign == "" || sign == "+" || sign == "-"
    requires d != [] && AllDigits(d)
    requires rest == [] || !IsDigit(rest[0])
    ensures Stoi(ws + sign + d + rest) == Some(if sign == "-" then -(DigitsValue(d) as int) else DigitsValue(d))
  {
    var t := sign + d + rest;
    assert ws + sign + d + rest == ws + t;
    assert t[0] == (if sign == "" then d[0] else sign[0]);
    StoiSkipsSpace(ws, t);
    StoiOfSigned(sign, d, rest);
  }

  /** Leading whitespace does not change what `stoi` reads. */
  lemma StoiSkipsSpace(ws: string, t: string)
    requires forall i :: 0 <= i < |ws| ==> IsSpace(ws[i])
    requires t == [] || !IsSpace(t[0])
    ensures Stoi(ws + t) == Stoi(t)
  {
    SpaceRunPrefix(ws, t);
    assert (ws + t)[|ws|..] == t;
    assert SpaceRun(t) == 0 && t[0..] == t;
  }

  /** `stoi` of an optional sign, digits and a non-digit tail. */
  lemma StoiOfSigned(sign: string, d: string, rest: string)
    requires sign == "" || sign == "+" || sign == "-"
    requires d != [] && AllDigits(d)
    requires rest == [] || !IsDigit(rest[0])
    ensures Stoi(sign + d + rest) == Some(if sign == "-" then -(DigitsValue(d) as int) else DigitsValue(d))
  {
    if sign == "" {
      assert sign + d + rest == d + rest;
      StoiReadsDigitPrefix(d, rest);
    } else {
      StoiAfterSign(sign[0], d, rest);
      assert sign + d + rest == [sign[0]] + (d + rest);
    }
  }

  /** `stoi` of a '+' or '-', digits and a non-digit tail. */
  lemma StoiAfterSign(c: char, d: string, rest: string)
    requires c == '+' || c == '-'
    requires d != [] && AllDigits(d)
    requires rest == [] || !IsDigit(rest[0])
    ensures Stoi([c] + (d + rest)) == Some(if c == '-' then -(DigitsValue(d) as int) else DigitsValue(d))
  {
    var u := d + rest;
    var t := [c] + u;
    assert t[0] == c && t[1..] == u;
    DigitRunPrefix(d, rest);
    StoiOfParts(t, u, |d|);
    assert u[..|d|] == d;
  }

  /** `stoi` of text with no leading whitespace, once the digits after the sign are known. */
  lemma StoiOfParts(s: string, u: string, n: nat)
    requires s != [] && !IsSpace(s[0]) && Unsigned(s) == u && 0 < n == DigitRun(u)
    ensures Stoi(s) == Some(if s[0] == '-' then -(DigitsValue(u[..n]) as int) else DigitsValue(u[..n]))
  {
    assert SpaceRun(s) == 0;
    assert s[0..] == s;
  }

  lemma {:induction false} SpaceRunPrefix(ws: string, t: string)
    requires forall i :: 0 <= i < |ws| ==> IsSpace(ws[i])
    requires t == [] || !IsSpace(t[0])
    ensures SpaceRun(ws + t) == |ws|
  {
    if ws != [] {
      assert (ws + t)[1..] == ws[1..] + t;
      SpaceRunPrefix(ws[1..], t);
    } else {
      assert ws + t == t;
    }
  }

  lemma {:induction false} DigitRunPrefix(d: string, rest: string)
    requires AllDigits(d)
    requires rest == [] || !IsDigit(rest[0])
    ensures DigitRun(d + rest) == |d|
  {
    if d != [] {
      assert (d + rest)[1..] == d[1..] + rest;
      DigitRunPrefix(d[1..], rest);
    } else {
      assert d + rest == rest;
    }
  }

}
