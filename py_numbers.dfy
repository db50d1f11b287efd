/** The Python number conversions the converter relies on.

    Integers are concrete: `int(text)` as Python 3 parses a base-10 string,
    and `str(n)` / `f'{n}'` as it renders one.  Floating point is left
    abstract: `FloatOps` carries `float(text)`, the `repr` that `f'{x}'` uses,
    and the `f'{x:.2f}'` rendering, as functions the caller supplies. */
module PyNumbers {
  import opened Wrappers

  /** `float(text)` (None when Python raises), `f'{x}'`, and `f'{x:.2f}'`,
      over some float type `F`. */
  datatype FloatOps<!F> = FloatOps(parse: string -> Option<F>, repr: F -> string, fixed2: F -> string)

  /** The characters `int()` strips from both ends: tab, line feed, vertical
      tab, form feed, carriage return and space among the ASCII characters,
      and the non-ASCII characters that `str.isspace` accepts.  The ASCII
      separators U+001C to U+001F are `str.isspace` characters but are not
      stripped by `int()`. */
  predicate IsSpace(c: char)
  {
    ('\t' <= c <= '\r') || c == ' '
    || c == '\U{85}' || c == '\U{A0}' || c == '\U{1680}'
    || ('\U{2000}' <= c <= '\U{200A}')
    || c == '\U{2028}' || c == '\U{2029}' || c == '\U{202F}' || c == '\U{205F}' || c == '\U{3000}'
  }

  predicate IsDigit(c: char)
  {
    '0' <= c <= '9'
  }

  /** `s` without its leading whitespace. */
  function TrimStart(s: string): (r: string)
    ensures |r| <= |s| && r == s[|s| - |r|..]
    ensures forall i :: 0 <= i < |s| - |r| ==> IsSpace(s[i])
    ensures r != [] ==> !IsSpace(r[0])
  {
    if s != [] && IsSpace(s[0]) then TrimStart(s[1..]) else s
  }

  /** `s` without its trailing whitespace. */
  function TrimEnd(s: string): (r: string)
    ensures |r| <= |s| && r == s[..|r|]
    ensures forall i :: |r| <= i < |s| ==> IsSpace(s[i])
    ensures r != [] ==> !IsSpace(r[|r| - 1])
  {
    if s != [] && IsSpace(s[|s| - 1]) then TrimEnd(s[..|s| - 1]) else s
  }

  function Trim(s: string): string
  {
    TrimEnd(TrimStart(s))
  }

  /** One or more ASCII digits, where a single `_` may separate two digits
      (`1_000`), as a Python integer literal allows. */
  predicate IsDigitGroups(s: string)
  {
    |s| > 0 && IsDigit(s[0]) && IsDigit(s[|s| - 1])
    && forall i :: 0 <= i < |s| ==> DigitOrJoin(s, i)
  }

  /** Position `i` of `s` holds a digit, or an `_` between two digits' worth of text. */
  predicate DigitOrJoin(s: string, i: nat)
    requires i < |s|
  {
    IsDigit(s[i]) || (s[i] == '_' && 0 < i < |s| - 1 && IsDigit(s[i + 1]))
  }

  /** The value of the digits of `s`, read in base 10, skipping underscores. */
  function DigitsValue(s: string): nat
  {
    if s == [] then 0
    else if IsDigit(s[|s| - 1]) then 10 * DigitsValue(s[..|s| - 1]) + (s[|s| - 1] as int - '0' as int)
    else DigitsValue(s[..|s| - 1])
  }

  /** `int(s)`, or None where Python raises ValueError: surrounding whitespace
      is ignored, then an optional sign, then digit groups. */
  function ParseInt(s: string): Option<int>
  {
    ParseSigned(Trim(s))
  }

  /** An optional sign followed by digit groups. */
  function ParseSigned(t: string): Option<int>
  {
    if |t| > 0 && t[0] == '-' && IsDigitGroups(t[1..]) then Some(-(DigitsValue(t[1..]) as int))
    else if |t| > 0 && t[0] == '+' && IsDigitGroups(t[1..]) then Some(DigitsValue(t[1..]))
    else if IsDigitGroups(t) then Some(DigitsValue(t))
    else None
  }

  /** `str(n)` for a natural number: its decimal digits, most significant first. */
  function NatToString(n: nat): (s: string)
    ensures |s| > 0
    ensures forall i :: 0 <= i < |s| ==> IsDigit(s[i])
  {
    var d := ['0' + (n % 10) as char];
    if n < 10 then d else NatToString(n / 10) + d
  }

  /** `str(n)`: a minus sign for negative numbers, then the digits. */
  function IntToString(n: int): string
  {
    if n < 0 then "-" + NatToString(-n) else NatToString(n)
  }

  lemma {:induction false} NatToStringValue(n: nat)
    ensures DigitsValue(NatToString(n)) == n
  {
    var s := NatToString(n);
    if n >= 10 {
      NatToStringValue(n / 10);
      assert s[..|s| - 1] == NatToString(n / 10);
    }
  }

  lemma TrimOfNoSpace(s: string)
    requires s != [] && !IsSpace(s[0]) && !IsSpace(s[|s| - 1])
    ensures TrimStart(s) == s && Trim(s) == s
  {
  }

  /** `int(str(n)) == n`: the integer rendering used for ordinals reads back. */
  lemma IntToStringRoundTrip(n: int)
    ensures ParseInt(IntToString(n)) == Some(n)
  {
    var s := IntToString(n);
    var m := if n < 0 then -n else n;
    var digits := NatToString(m);
    NatToStringValue(m);
    assert IsDigitGroups(digits);
    assert !IsSpace(digits[|digits| - 1]);
    if n < 0 {
      assert s == "-" + digits;
      assert s[|s| - 1] == digits[|digits| - 1];
      TrimOfNoSpace(s);
      assert s[1..] == digits;
      assert ParseSigned(s) == Some(n);
    } else {
      assert s == digits;
      assert !IsSpace(digits[0]);
      TrimOfNoSpace(s);
      assert s[0] != '-' && s[0] != '+';
      assert ParseSigned(s) == Some(n);
    }
  }

  /** The literal `None` that `f'{None}'` prints is not an integer. */
  lemma NoneIsNotAnInteger()
    ensures ParseInt("None") == None
  {
    ParseIntRefusesStrayCharacter("None", 0);
  }

  /** Text that contains no digit at all is never an integer; in particular
      empty or all-whitespace text makes `int()` raise. */
  lemma ParseIntNeedsDigit(s: string)
    requires forall i :: 0 <= i < |s| ==> !IsDigit(s[i])
    ensures ParseInt(s) == None
  {
    var t := TrimStart(s);
    var u := TrimEnd(t);
    forall i | 0 <= i < |u| ensures !IsDigit(u[i]) {
      assert u[i] == t[i] == s[|s| - |t| + i];
    }
    assert !IsDigitGroups(u);
    if |u| > 1 {
      assert u[1..][0] == u[1];
      assert !IsDigitGroups(u[1..]);
    }
  }

  /** Whitespace on either side of the text is ignored, whatever the text. */
  lemma ParseIntIgnoresSurroundingSpace(w1: string, s: string, w2: string)
    requires forall i :: 0 <= i < |w1| ==> IsSpace(w1[i])
    requires forall i :: 0 <= i < |w2| ==> IsSpace(w2[i])
    ensures ParseInt(w1 + s + w2) == ParseInt(s)
  {
    assert w1 + s + w2 == w1 + (s + w2);
    TrimStartSkipsSpace(w1, s + w2);
    TrimOfSuffixedSpace(s, w2);
  }

  lemma {:induction false} TrimStartSkipsSpace(w: string, x: string)
    requires forall i :: 0 <= i < |w| ==> IsSpace(w[i])
    ensures TrimStart(w + x) == TrimStart(x)
  {
    if w != [] {
      assert (w + x)[0] == w[0];
      assert (w + x)[1..] == w[1..] + x;
      TrimStartSkipsSpace(w[1..], x);
    } else {
      assert w + x == x;
    }
  }

  lemma {:induction false} TrimEndSkipsSpace(x: string, w: string)
    requires forall i :: 0 <= i < |w| ==> IsSpace(w[i])
    ensures TrimEnd(x + w) == TrimEnd(x)
  {
    if w != [] {
      var w' := w[..|w| - 1];
      assert (x + w)[|x + w| - 1] == w[|w| - 1];
      assert (x + w)[..|x + w| - 1] == x + w';
      TrimEndSkipsSpace(x, w');
    } else {
      assert x + w == x;
    }
  }

  lemma {:induction false} TrimOfSuffixedSpace(s: string, w: string)
    requires forall i :: 0 <= i < |w| ==> IsSpace(w[i])
    ensures Trim(s + w) == Trim(s)
  {
    if s == [] {
      assert s + w == w + [];
      TrimStartSkipsSpace(w, []);
    } else if IsSpace(s[0]) {
      assert (s + w)[1..] == s[1..] + w;
      TrimOfSuffixedSpace(s[1..], w);
    } else {
      assert TrimStart(s + w) == s + w;
      TrimEndSkipsSpace(s, w);
    }
  }

  /** A character that is neither whitespace, a digit, an underscore nor a
      sign makes `int()` raise wherever it stands: a decimal point, an
      exponent, a letter. */
  lemma ParseIntRefusesStrayCharacter(s: string, p: nat)
    requires p < |s|
    requires !IsSpace(s[p]) && !IsDigit(s[p]) && s[p] != '_' && s[p] != '-' && s[p] != '+'
    ensures ParseInt(s) == None
  {
    var t := TrimStart(s);
    var u := TrimEnd(t);
    var q := p - (|s| - |t|);
    assert 0 <= q < |t| && t[q] == s[p];
    assert q < |u| && u[q] == s[p];
    NotDigitGroups(u, q);
    if u[0] == '-' || u[0] == '+' {
      assert 0 < q && u[1..][q - 1] == u[q];
      NotDigitGroups(u[1..], q - 1);
    }
  }

  lemma NotDigitGroups(v: string, q: nat)
    requires q < |v| && !IsDigit(v[q]) && v[q] != '_'
    ensures !IsDigitGroups(v)
  {
    assert !DigitOrJoin(v, q);
  }

  /** A decimal point anywhere makes `int()` raise, so a fractional ordinal
      is never an integer. */
  lemma ParseIntRefusesDecimalPoint(s: string)
    requires '.' in s
    ensures ParseInt(s) == None
  {
    var p :| 0 <= p < |s| && s[p] == '.';
    ParseIntRefusesStrayCharacter(s, p);
  }

  /** A leading minus sign negates and a leading plus sign is accepted: a
      sign followed by digit groups is read as the signed value of the
      digits, `-0` included. */
  lemma SignedDigits(s: string)
    requires |s| > 1 && (s[0] == '-' || s[0] == '+') && IsDigitGroups(s[1..])
    ensures s[0] == '-' ==> ParseInt(s) == Some(-(DigitsValue(s[1..]) as int))
    ensures s[0] == '+' ==> ParseInt(s) == Some(DigitsValue(s[1..]))
  {
    assert s[|s| - 1] == s[1..][|s| - 2];
    TrimOfNoSpace(s);
  }

  /** A plus sign and single underscores between digits are accepted. */
  lemma ParseIntUnderscores()
    ensures ParseInt("+1_000") == Some(1000)
  {
    assert TrimStart("+1_000") == "+1_000" && TrimEnd("+1_000") == "+1_000";
    var g := "+1_000"[1..];
    assert g == "1_000";
    assert IsDigitGroups(g);
    assert g[..4] == "1_00" && "1_00"[..3] == "1_0" && "1_0"[..2] == "1_" && "1_"[..1] == "1" && "1"[..0] == "";
    assert DigitsValue(g) == 1000;
  }

  /** Doubled underscores are refused. */
  lemma ParseIntRefusesDoubleUnderscore()
    ensures ParseInt("1__0") == None
  {
    var s := "1__0";
    assert !IsSpace(s[0]) && !IsSpace(s[3]);
    TrimOfNoSpace(s);
    assert !IsDigitGroups(s) by { assert !DigitOrJoin(s, 1); }
  }
}
