/** `int(s)` of Python on the ASCII strings of booking rules: surrounding space, a sign, digits, and single
    underscores between digits. */
module PythonInt {
  import opened Common

  /** The characters `int` skips around a number. */
  predicate IsSpace(c: char) {
    c == ' ' || '\t' <= c <= '\r'
  }

  predicate IsDigit(c: char) {
    '0' <= c <= '9'
  }

  function TrimLeft(s: string): string {
    if s != [] && IsSpace(s[0]) then TrimLeft(s[1..]) else s
  }

  function TrimRight(s: string): string {
    if s != [] && IsSpace(s[|s| - 1]) then TrimRight(s[..|s| - 1]) else s
  }

  /** Digits, the first and last characters among them, and underscores only singly between two of them. */
  function Digits(s: string): Option<nat>
    decreases |s|
  {
    if s == [] || !IsDigit(s[|s| - 1]) then None
    else
      var d, n := (s[|s| - 1] - '0') as nat, |s| - 1;
      if n == 0 then Some(d)
      else
        match Digits(s[..if s[n - 1] == '_' then n - 1 else n])
        case None => None
        case Some(value) => Some(10 * value + d)
  }

  /** None where `int` raises. */
  function PyInt(s: string): Option<int> {
    var t := TrimRight(TrimLeft(s));
    if t == [] then None
    else if t[0] == '-' then Times(-1, Digits(t[1..]))
    else Times(1, Digits(if t[0] == '+' then t[1..] else t))
  }

  function Times(sign: int, digits: Option<nat>): Option<int> {
    match digits
    case None => None
    case Some(n) => var value: int := sign * n; Some(value)
  }

  lemma DigitsOfOne(a: char)
    requires IsDigit(a)
    ensures Digits([a]) == Some((a - '0') as nat)
  {
  }

  lemma DigitsOfTwo(a: char, b: char)
    requires IsDigit(a) && IsDigit(b)
    ensures Digits([a, b]) == Some(10 * ((a - '0') as nat) + ((b - '0') as nat))
  {
    DigitsOfOne(a);
    assert [a, b][..1] == [a];
  }

  /** Two plain digits are read as the number they spell. */
  lemma ReadsTwoDigits(a: char, b: char)
    requires IsDigit(a) && IsDigit(b)
    ensures PyInt([a, b]) == Some(10 * ((a - '0') as nat) + ((b - '0') as nat))
  {
    DigitsOfTwo(a, b);
    assert TrimRight(TrimLeft([a, b])) == [a, b];
  }

  // ----- What is read -----

  /** A number as it is written, without leading zeros. */
  function Decimal(n: nat): (s: string)
    ensures s != []
  {
    (if n < 10 then [] else Decimal(n / 10)) + ["0123456789"[n % 10]]
  }

  lemma {:induction false} DigitsOfDecimal(n: nat)
    ensures Digits(Decimal(n)) == Some(n)
    ensures forall i | 0 <= i < |Decimal(n)| :: IsDigit(Decimal(n)[i])
    decreases n
  {
    var s := Decimal(n);
    assert IsDigit(s[|s| - 1]) && (s[|s| - 1] - '0') as nat == n % 10;
    if n >= 10 {
      DigitsOfDecimal(n / 10);
      assert s[..|s| - 1] == Decimal(n / 10);
    }
  }

  ghost predicate AllSpaces(s: string) {
    forall i | 0 <= i < |s| :: s[i] in " \t\n\r" || s[i] == '\U{B}' || s[i] == '\U{C}'
  }

  lemma {:induction false} TrimsLeft(pre: string, s: string)
    requires AllSpaces(pre) && s != [] && !IsSpace(s[0])
    ensures TrimLeft(pre + s) == s
    decreases |pre|
  {
    if pre == [] {
      assert pre + s == s;
    } else {
      assert (pre + s)[1..] == pre[1..] + s && IsSpace(pre[0]);
      TrimsLeft(pre[1..], s);
    }
  }

  lemma {:induction false} TrimsRight(s: string, post: string)
    requires AllSpaces(post) && s != [] && !IsSpace(s[|s| - 1])
    ensures TrimRight(s + post) == s
    decreases |post|
  {
    if post == [] {
      assert s + post == s;
    } else {
      var n := |post| - 1;
      assert (s + post)[..|s + post| - 1] == s + post[..n] && IsSpace(post[n]);
      TrimsRight(s, post[..n]);
    }
  }

  lemma Trims(pre: string, t: string, post: string)
    requires AllSpaces(pre) && AllSpaces(post) && t != [] && !IsSpace(t[0]) && !IsSpace(t[|t| - 1])
    ensures TrimRight(TrimLeft(pre + (t + post))) == t
  {
    assert (t + post)[0] == t[0];
    TrimsLeft(pre, t + post);
    TrimsRight(t, post);
  }

  lemma SignedDigits(sign: string, n: nat)
    requires sign == "" || sign == "+" || sign == "-"
    ensures
      var t := sign + Decimal(n);
      && !IsSpace(t[0]) && !IsSpace(t[|t| - 1])
      && (t[0] == '-' <==> sign == "-") && (t[0] == '+' <==> sign == "+") && t[|sign|..] == Decimal(n)
  {
    var t := sign + Decimal(n);
    DigitsOfDecimal(n);
    assert t[|t| - 1] == Decimal(n)[|Decimal(n)| - 1];
    if sign == "" { assert t[0] == Decimal(n)[0]; } else { assert t[0] == sign[0]; }
  }

  /** A written number is read back, with spaces around it and a sign before it. */
  lemma ReadsDecimal(pre: string, sign: string, n: nat, post: string)
    requires AllSpaces(pre) && AllSpaces(post) && (sign == "" || sign == "+" || sign == "-")
    ensures
      var read := PyInt(pre + ((sign + Decimal(n)) + post));
      read.Some? && if sign == "-" then read.value + n == 0 else read.value == n
  {
    SignedDigits(sign, n);
    Trims(pre, sign + Decimal(n), post);
    ReadsSigned(pre + ((sign + Decimal(n)) + post), sign, n);
  }

  lemma ReadsSigned(s: string, sign: string, n: nat)
    requires (sign == "" || sign == "+" || sign == "-") && TrimRight(TrimLeft(s)) == sign + Decimal(n)
    ensures PyInt(s).Some? && if sign == "-" then PyInt(s).value + n == 0 else PyInt(s).value == n
  {
    SignedDigits(sign, n);
    DigitsOfDecimal(n);
    if sign == "" { assert (sign + Decimal(n)) == Decimal(n); }
  }

  /** A number may be written with single underscores between its digits, and not otherwise. */
  lemma Underscores()
    ensures PyInt("1_0") == Some(10) && PyInt("1__0") == None && PyInt("_1") == None && PyInt("1_") == None
  {
    DigitsOfOne('1');
    assert "1_0"[..1] == ['1'] && "1__0"[..2] == "1_" && "_1"[..0] == "";
    assert forall s | s in {"1_0", "1__0", "_1", "1_"} :: s[0] == '1' || s[0] == '_';
    assert TrimRight(TrimLeft("1_0")) == "1_0" && TrimRight(TrimLeft("1__0")) == "1__0";
    assert TrimRight(TrimLeft("_1")) == "_1" && TrimRight(TrimLeft("1_")) == "1_";
  }
}
