/** Python's string operations, on ASCII whitespace and digits. */
module Text {

  predicate Whitespace(c: char) {
    c == ' ' || 9 as char <= c <= 13 as char
  }

  function StripStart(s: string): string {
    if s != "" && Whitespace(s[0]) then StripStart(s[1..]) else s
  }

  function StripTail(s: string): string {
    if s != "" && Whitespace(s[|s| - 1]) then StripTail(s[..|s| - 1]) else s
  }

  /** `str.strip()`. */
  function Strip(s: string): string { StripTail(StripStart(s)) }

  lemma StripTight(s: string)
    requires s == "" || (!Whitespace(s[0]) && !Whitespace(s[|s| - 1]))
    ensures Strip(s) == s
  {
  }

  predicate Digit(c: char) { '0' <= c <= '9' }

  /** `str.isdigit()`. */
  predicate Digits(s: string) {
    s != "" && forall i :: 0 <= i < |s| ==> Digit(s[i])
  }

  function Decimal(n: nat): (s: string)
    ensures Digits(s)
  {
    if n < 10 then [(48 + n) as char] else Decimal(n / 10) + [(48 + n % 10) as char]
  }

  /** The number a text of decimal digits stands for. */
  function Value(s: string): int {
    if s == "" then 0 else 10 * Value(s[..|s| - 1]) + (s[|s| - 1] as int - '0' as int)
  }

  /** `Decimal` writes a number without leading zeros, and reading it gives the number back. */
  lemma {:induction false} DecimalReads(n: nat)
    ensures Value(Decimal(n)) == n && (n > 0 ==> Decimal(n)[0] != '0')
  {
    var s := Decimal(n);
    if n >= 10 {
      DecimalReads(n / 10);
      assert s[..|s| - 1] == Decimal(n / 10);
    } else {
      assert s[..|s| - 1] == "" && Value("") == 0;
    }
  }

  /** Nothing but whitespace. */
  predicate Blank(s: string) {
    forall i :: 0 <= i < |s| ==> Whitespace(s[i])
  }

  lemma {:induction false} StripTailBlank(s: string)
    ensures StripTail(s) == "" <==> Blank(s)
  {
    if s != "" && Whitespace(s[|s| - 1]) {
      StripTailBlank(s[..|s| - 1]);
    }
  }

  /** `s.strip()` is empty exactly for blank text. */
  lemma {:induction false} StripBlank(s: string)
    ensures Strip(s) == "" <==> Blank(s)
  {
    if s != "" && Whitespace(s[0]) {
      StripBlank(s[1..]);
    } else {
      StripTailBlank(s);
    }
  }

  lemma {:induction false} StripStartIs(s: string) returns (front: string)
    ensures s == front + StripStart(s) && Blank(front) && (StripStart(s) != "" ==> !Whitespace(StripStart(s)[0]))
  {
    front := "";
    if s != "" && Whitespace(s[0]) {
      front := StripStartIs(s[1..]);
      assert s == [s[0]] + s[1..];
      front := [s[0]] + front;
    }
  }

  lemma {:induction false} StripTailIs(s: string) returns (back: string)
    ensures s == StripTail(s) + back && Blank(back) && (StripTail(s) != "" ==> !Whitespace(StripTail(s)[|StripTail(s)| - 1]))
  {
    back := "";
    if s != "" && Whitespace(s[|s| - 1]) {
      back := StripTailIs(s[..|s| - 1]);
      assert s == s[..|s| - 1] + [s[|s| - 1]];
      back := back + [s[|s| - 1]];
    }
  }

  /** Stripping takes off whitespace, and leaves none at either end. */
  lemma StripIs(s: string) returns (front: string, back: string)
    ensures s == front + Strip(s) + back && Blank(front) && Blank(back)
    ensures Strip(s) != "" ==> !Whitespace(Strip(s)[0]) && !Whitespace(Strip(s)[|Strip(s)| - 1])
  {
    front := StripStartIs(s);
    back := StripTailIs(StripStart(s));
    hide StripStart, StripTail, Whitespace;
    assert StripStart(s) == Strip(s) + back;
  }

  predicate Occurs(text: string, pattern: string, i: int) {
    0 <= i && i + |pattern| <= |text| && text[i..i + |pattern|] == pattern
  }

  /** `part in text`. */
  predicate Contains(text: string, part: string) {
    exists i :: 0 <= i <= |text| && Occurs(text, part, i)
  }

  /** A part is contained exactly if the text is something before it, the part, and something after it. */
  lemma ContainsIff(text: string, part: string)
    ensures Contains(text, part) <==> exists before, after :: text == before + part + after
  {
    if Contains(text, part) {
      var i :| 0 <= i <= |text| && Occurs(text, part, i);
      assert text == text[..i] + part + text[i + |part|..];
    }
    forall before: string, after: string | text == before + part + after ensures Contains(text, part) {
      assert text[|before|..|before| + |part|] == part;
      assert Occurs(text, part, |before|);
    }
  }

  /** `text.rfind(pattern, lo, hi)`: the last occurrence inside text[lo..hi], or -1. */
  function RFind(text: string, pattern: string, lo: nat, hi: nat): (i: int)
    requires lo <= hi <= |text| && pattern != ""
    ensures i == -1 || (lo <= i && i + |pattern| <= hi && Occurs(text, pattern, i))
    ensures forall j :: Occurs(text, pattern, j) && lo <= j && j + |pattern| <= hi ==> j <= i
    decreases hi
  {
    if hi < lo + |pattern| then -1
    else if text[hi - |pattern|..hi] == pattern then hi - |pattern|
    else RFind(text, pattern, lo, hi - 1)
  }
}
