/** Text helpers standing for the Python string operations the source relies on. */
module Text {

  /** `sep.join(items)`. */
  function Join(sep: string, items: seq<string>): string
  {
    if items == [] then ""
    else if |items| == 1 then items[0]
    else items[0] + sep + Join(sep, items[1..])
  }

  lemma {:induction false} JoinAppend(sep: string, a: seq<string>, b: seq<string>)
    requires a != [] && b != []
    ensures Join(sep, a + b) == Join(sep, a) + sep + Join(sep, b)
  {
    if |a| == 1 {
      assert (a + b)[1..] == b;
    } else {
      assert (a + b)[1..] == a[1..] + b;
      JoinAppend(sep, a[1..], b);
    }
  }

  /** Appending one item to a joined sequence. */
  lemma JoinSnoc(sep: string, a: seq<string>, x: string)
    ensures Join(sep, a + [x]) == if a == [] then x else Join(sep, a) + sep + x
  {
    if a == [] {
      assert a + [x] == [x];
    } else {
      JoinAppend(sep, a, [x]);
    }
  }

  /** A join is empty exactly when every item is empty and there is at most one item,
      provided the separator is not empty. */
  lemma {:induction false} JoinEmpty(sep: string, items: seq<string>)
    requires sep != ""
    ensures Join(sep, items) == "" <==> (|items| <= 1 && forall i | 0 <= i < |items| :: items[i] == "")
  {
    if |items| > 1 {
      assert |Join(sep, items)| >= |sep|;
    }
  }

  function DigitChar(d: nat): (c: char)
    requires d < 10
    ensures '0' <= c <= '9'
  {
    "0123456789"[d]
  }

  predicate IsDigit(c: char) {
    '0' <= c <= '9'
  }

  predicate AllDigits(s: string) {
    forall i | 0 <= i < |s| :: IsDigit(s[i])
  }

  /** `str(n)` for a non-negative Python int. */
  function NatToString(n: nat): (r: string)
    ensures r != [] && AllDigits(r)
    decreases n
  {
    if n < 10 then [DigitChar(n)] else NatToString(n / 10) + [DigitChar(n % 10)]
  }

  /** `str(i)` for a Python int. */
  function IntToString(i: int): (r: string)
    ensures r != []
    ensures i < 0 <==> r[0] == '-'
  {
    if i < 0 then "-" + NatToString(-i) else NatToString(i)
  }

  /** Whitespace that Python 2's `int(s)` strips from both ends of `s`. */
  predicate IsSpace(c: char) {
    c == ' ' || c == '\t' || c == '\n' || c == '\r' || c == '\U{B}' || c == '\U{C}'
  }

  function StripLeft(s: string): (r: string)
    ensures |r| <= |s| && (r != [] ==> !IsSpace(r[0]))
  {
    if s != [] && IsSpace(s[0]) then StripLeft(s[1..]) else s
  }

  function StripRight(s: string): (r: string)
    ensures |r| <= |s| && (r != [] ==> !IsSpace(r[|r| - 1]))
  {
    if s != [] && IsSpace(s[|s| - 1]) then StripRight(s[..|s| - 1]) else s
  }

  /** True when Python 2's `int(s)` accepts the text `s`: optional surrounding
      whitespace, an optional sign, optional whitespace after the sign (`int("- 1")`
      is `-1`) and at least one decimal digit. */
  predicate IsIntLiteral(s: string) {
    var t := StripRight(StripLeft(s));
    if t != [] && (t[0] == '+' || t[0] == '-') then
      var u := StripLeft(t[1..]);
      u != [] && AllDigits(u)
    else t != [] && AllDigits(t)
  }

  /** Python 2 accepts whitespace between the sign and the digits. */
  lemma SpaceAfterSign()
    ensures IsIntLiteral("- 1") && IsIntLiteral(" + 42 ")
    ensures !IsIntLiteral("-") && !IsIntLiteral("1 2")
  {
    assert StripLeft("- 1") == "- 1";
    assert StripRight("- 1") == "- 1";
    assert StripLeft(" 1") == StripLeft("1") == "1";
    assert StripLeft(" + 42 ") == "+ 42 ";
    assert StripRight("+ 42 ") == StripRight("+ 42") == "+ 42";
    assert StripLeft(" 42") == "42";
    assert StripLeft("-") == StripRight("-") == "-";
    assert StripLeft("1 2") == StripRight("1 2") == "1 2";
    assert !AllDigits("1 2") by { assert "1 2"[1] == ' '; }
  }

  /** `s[1:]` in Python: the empty string stays empty. */
  function Tail(s: string): string {
    if s == [] then [] else s[1..]
  }

  /** ASCII upper-casing of one character, as `str.upper` does for ASCII text. */
  function UpperChar(c: char): char {
    if 'a' <= c <= 'z' then (c as int - 32) as char else c
  }

  function Upper(s: string): (r: string)
    ensures |r| == |s|
    ensures forall i | 0 <= i < |s| :: r[i] == UpperChar(s[i])
  {
    seq(|s|, i requires 0 <= i < |s| => UpperChar(s[i]))
  }
}
