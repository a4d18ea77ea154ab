/**
 * String operations the data layer uses, with JavaScript's meaning:
 * `trim`, the `\s` character class, ASCII case mapping, `split(c)` /
 * `join(c)` and the decimal rendering of a non-negative integer.
 */
module Text {

  /** JavaScript's WhiteSpace and LineTerminator characters: what `trim` strips and `\s` matches. */
  predicate IsSpace(c: char) {
    || c == ' ' || c == '\t' || c == '\n' || c == '\r'
    || c == '\U{B}' || c == '\U{C}' || c == '\U{A0}' || c == '\U{1680}'
    || ('\U{2000}' <= c <= '\U{200A}')
    || c == '\U{2028}' || c == '\U{2029}' || c == '\U{202F}' || c == '\U{205F}'
    || c == '\U{3000}' || c == '\U{FEFF}'
  }

  predicate AllSpace(s: string) {
    forall k :: 0 <= k < |s| ==> IsSpace(s[k])
  }

  function TrimStart(s: string): (r: string)
    ensures r == "" || !IsSpace(r[0])
    ensures r == "" <==> AllSpace(s)
    ensures |r| <= |s| && r == s[|s| - |r|..]
  {
    if s != "" && IsSpace(s[0]) then TrimStart(s[1..]) else s
  }

  function TrimEnd(s: string): (r: string)
    ensures r == "" || !IsSpace(r[|r| - 1])
    ensures r == "" <==> AllSpace(s)
    ensures |r| <= |s| && r == s[..|r|]
  {
    if s != "" && IsSpace(s[|s| - 1]) then TrimEnd(s[..|s| - 1]) else s
  }

  /** `s.trim()`: the slice of `s` without leading and trailing white space. */
  function Trim(s: string): (r: string)
    ensures r == "" <==> AllSpace(s)
    ensures r != "" ==> !IsSpace(r[0]) && !IsSpace(r[|r| - 1])
  {
    var t := TrimStart(s);
    assert t != "" ==> t[0] == TrimEnd(t)[0] || TrimEnd(t) == "";
    TrimEnd(t)
  }

  function LowerChar(c: char): char {
    if 'A' <= c <= 'Z' then (c as int + 32) as char else c
  }

  function UpperChar(c: char): (r: char)
    ensures !('a' <= r <= 'z')
    ensures !('a' <= c <= 'z') ==> r == c
  {
    if 'a' <= c <= 'z' then (c as int - 32) as char else c
  }

  /** `s.toLowerCase()` on the ASCII letters. */
  function ToLower(s: string): (r: string)
    ensures |r| == |s| && forall i :: 0 <= i < |s| ==> r[i] == LowerChar(s[i])
  {
    seq(|s|, i requires 0 <= i < |s| => LowerChar(s[i]))
  }

  /** The first position of `c` in `s` (`s.indexOf(c)` when it is there). */
  function IndexOf(s: string, c: char): (i: nat)
    requires c in s
    ensures i < |s| && s[i] == c && c !in s[..i]
  {
    if s[0] == c then 0 else 1 + IndexOf(s[1..], c)
  }

  /** `s.split(sep)` for a one-character separator. */
  function Split(s: string, sep: char): (parts: seq<string>)
    ensures |parts| >= 1
    ensures forall i :: 0 <= i < |parts| ==> sep !in parts[i]
    decreases |s|
  {
    if sep in s then
      var i := IndexOf(s, sep);
      [s[..i]] + Split(s[i + 1..], sep)
    else
      [s]
  }

  /** `parts.join(sep)`. */
  function Join(parts: seq<string>, sep: char): string {
    if |parts| == 0 then ""
    else if |parts| == 1 then parts[0]
    else parts[0] + [sep] + Join(parts[1..], sep)
  }

  /** Splitting and joining again with the same separator gives the text back. */
  lemma {:induction false} JoinSplit(s: string, sep: char)
    ensures Join(Split(s, sep), sep) == s
    decreases |s|
  {
    if sep in s {
      var i := IndexOf(s, sep);
      var rest := Split(s[i + 1..], sep);
      JoinSplit(s[i + 1..], sep);
      assert Split(s, sep) == [s[..i]] + rest;
      assert s == s[..i] + [sep] + s[i + 1..];
    }
  }

  /** `s.split(sep)[0]`. */
  function FirstPart(s: string, sep: char): string {
    Split(s, sep)[0]
  }

  /** `s.split(sep).slice(1).join(sep)`. */
  function OtherParts(s: string, sep: char): string {
    Join(Split(s, sep)[1..], sep)
  }

  /**
   * The first part is everything before the first separator and the
   * re-joined rest is everything after it (empty when there is none).
   */
  lemma SplitAtFirst(s: string, sep: char)
    ensures sep !in s ==> FirstPart(s, sep) == s && OtherParts(s, sep) == ""
    ensures sep in s ==> FirstPart(s, sep) == s[..IndexOf(s, sep)]
                         && OtherParts(s, sep) == s[IndexOf(s, sep) + 1..]
  {
    if sep in s {
      var i := IndexOf(s, sep);
      assert Split(s, sep)[1..] == Split(s[i + 1..], sep);
      JoinSplit(s[i + 1..], sep);
    }
  }

  lemma TrimBothEnds(s: string)
    ensures Trim(s) == TrimEnd(TrimStart(s))
  {
  }

  lemma OneCharUntrimmed(w: char)
    requires !IsSpace(w)
    ensures TrimStart([w]) == [w] && TrimEnd([w]) == [w]
  {
  }

  lemma LeadingSpaceDropped(w: char)
    ensures TrimStart([' ', w]) == TrimStart([w])
  {
    assert [' ', w][1..] == [w];
  }

  /** A one-character word is its own trim, and so is the word after one leading space. */
  lemma TrimOneWord(w: char)
    requires !IsSpace(w)
    ensures Trim([w]) == [w] && Trim([' ', w]) == [w]
  {
    OneCharUntrimmed(w);
    LeadingSpaceDropped(w);
    TrimBothEnds([w]);
    TrimBothEnds([' ', w]);
  }

  /**
   * Splitting a one-character word at spaces gives the word and no rest;
   * with a space before it, an empty first part and the word as the rest.
   */
  lemma SplitOneWord(w: char)
    requires w != ' '
    ensures FirstPart([w], ' ') == [w] && OtherParts([w], ' ') == ""
    ensures FirstPart([' ', w], ' ') == "" && OtherParts([' ', w], ' ') == [w]
  {
    SplitAtFirst([w], ' ');
    assert IndexOf([' ', w], ' ') == 0;
    SplitAtFirst([' ', w], ' ');
    assert [' ', w][1..] == [w];
  }

  /** Trimming a text that starts with a non-space character keeps that first character. */
  lemma TrimKeepsFirst(s: string)
    requires s != "" && !IsSpace(s[0])
    ensures Trim(s) != "" && Trim(s)[0] == s[0]
  {
    TrimBothEnds(s);
    assert TrimStart(s) == s;
    assert !AllSpace(s);
  }

  function Digit(d: nat): char
    requires d < 10
  {
    "0123456789"[d]
  }

  /** `String(n)` for a non-negative integer: its decimal digits, most significant first. */
  function Decimal(n: nat): (r: string)
    ensures |r| >= 1
    ensures forall i :: 0 <= i < |r| ==> '0' <= r[i] <= '9'
    ensures n >= 10 ==> r[0] != '0'
  {
    if n < 10 then [Digit(n)] else Decimal(n / 10) + [Digit(n % 10)]
  }

  /** The number a string of decimal digits denotes. */
  function DigitsValue(s: string): nat
    requires forall i :: 0 <= i < |s| ==> '0' <= s[i] <= '9'
  {
    if s == "" then 0 else 10 * DigitsValue(s[..|s| - 1]) + (s[|s| - 1] as int - '0' as int)
  }

  /** Reading the digits back gives the number: distinct numbers render distinctly. */
  lemma {:induction false} DecimalValue(n: nat)
    ensures DigitsValue(Decimal(n)) == n
  {
    if n >= 10 {
      DecimalValue(n / 10);
      var r := Decimal(n);
      assert r == Decimal(n / 10) + [Digit(n % 10)];
      assert r[..|r| - 1] == Decimal(n / 10);
      DigitValue(n % 10);
    } else {
      DigitValue(n);
    }
  }

  lemma DigitValue(d: nat)
    requires d < 10
    ensures Digit(d) as int - '0' as int == d
  {
  }

  lemma DecimalInjective(m: nat, n: nat)
    requires Decimal(m) == Decimal(n)
    ensures m == n
  {
    DecimalValue(m);
    DecimalValue(n);
  }
}
