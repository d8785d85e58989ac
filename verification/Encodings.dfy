/**
  UTF-16 in network byte order (section 2 of RFC 2781) and base64 (section 4 of RFC 4648), as mailbox names use
  them, with the lenient base64 decoder of the standard library.
*/
module Encodings {
  import opened Wrappers

  // ----- string helpers -----

  lemma Assoc<T>(a: seq<T>, b: seq<T>, c: seq<T>)
    ensures (a + b) + c == a + (b + c)
  {
  }

  /** Index of the first `c`, or the length when there is none. */
  function Find(s: string, c: char): (i: nat)
    ensures i <= |s| && (i < |s| ==> s[i] == c) && forall j :: 0 <= j < i ==> s[j] != c
  {
    if s == "" || s[0] == c then 0 else 1 + Find(s[1..], c)
  }

  lemma FindUnique(s: string, c: char, i: nat)
    requires i < |s| && s[i] == c && forall j :: 0 <= j < i ==> s[j] != c
    ensures Find(s, c) == i
  {
  }

  /** `str.replace` with a single-character pattern. */
  function Replace(s: string, c: char, sub: string): string {
    if s == "" then "" else (if s[0] == c then sub else [s[0]]) + Replace(s[1..], c, sub)
  }

  lemma {:induction false} ReplaceConcat(s: string, t: string, c: char, sub: string)
    ensures Replace(s + t, c, sub) == Replace(s, c, sub) + Replace(t, c, sub)
  {
    if s == "" {
      assert s + t == t;
    } else {
      assert (s + t)[1..] == s[1..] + t;
      ReplaceConcat(s[1..], t, c, sub);
    }
  }

  predicate Printable(c: char) {
    0x20 as char <= c <= 0x7E as char
  }

  ghost predicate AllPrintable(s: string) {
    forall i :: 0 <= i < |s| ==> Printable(s[i])
  }

  // ----- UTF-16 -----

  ghost predicate IsBytes(b: seq<int>) {
    forall i :: 0 <= i < |b| ==> 0 <= b[i] < 256
  }

  function Utf16Char(c: char): (b: seq<int>)
    ensures IsBytes(b) && |b| >= 2
  {
    var v := c as int;
    if v < 0x10000 then [v / 256, v % 256]
    else
      var hi, lo := 0xD800 + (v - 0x10000) / 0x400, 0xDC00 + (v - 0x10000) % 0x400;
      [hi / 256, hi % 256, lo / 256, lo % 256]
  }

  function Utf16Encode(s: string): (b: seq<int>)
    ensures IsBytes(b) && |b| >= 2 * |s|
  {
    if s == "" then [] else Utf16Char(s[0]) + Utf16Encode(s[1..])
  }

  /** Strict decoding: `None` for a truncated unit or an unpaired surrogate. */
  function Utf16Decode(b: seq<int>): Option<string>
    requires IsBytes(b)
  {
    if b == [] then Some("")
    else if |b| == 1 then None
    else
      var unit := b[0] * 256 + b[1];
      if unit < 0xD800 || unit >= 0xE000 then Cons(unit as char, Utf16Decode(b[2..]))
      else if unit >= 0xDC00 || |b| < 4 then None
      else
        var low := b[2] * 256 + b[3];
        if low < 0xDC00 || low >= 0xE000 then None
        else Cons((0x10000 + (unit - 0xD800) * 0x400 + (low - 0xDC00)) as char, Utf16Decode(b[4..]))
  }

  function Cons(c: char, rest: Option<string>): Option<string> {
    if rest.None? then None else Some([c] + rest.value)
  }

  lemma SurrogatesGlue(v: int)
    requires 0x10000 <= v < 0x110000
    ensures var hi, lo := 0xD800 + (v - 0x10000) / 0x400, 0xDC00 + (v - 0x10000) % 0x400;
            && 0xD800 <= hi < 0xDC00 <= lo < 0xE000
            && 0x10000 + (hi - 0xD800) * 0x400 + (lo - 0xDC00) == v
            && hi / 256 * 256 + hi % 256 == hi && lo / 256 * 256 + lo % 256 == lo
  {
  }

  lemma Utf16CharDecodes(c: char, rest: seq<int>)
    requires IsBytes(rest)
    ensures Utf16Decode(Utf16Char(c) + rest) == Cons(c, Utf16Decode(rest))
  {
    var v := c as int;
    var u := Utf16Char(c);
    var b := u + rest;
    assert v as char == c;
    if v < 0x10000 {
      assert b[2..] == rest;
      assert b[0] * 256 + b[1] == v;
    } else {
      SurrogatesGlue(v);
      assert b[4..] == rest;
      assert b[0] == u[0] && b[1] == u[1] && b[2] == u[2] && b[3] == u[3];
      hide Utf16Char;
      var hi, lo := b[0] * 256 + b[1], b[2] * 256 + b[3];
      assert 0x10000 + (hi - 0xD800) * 0x400 + (lo - 0xDC00) == v;
    }
  }

  lemma {:induction false} Utf16RoundTrip(s: string)
    ensures Utf16Decode(Utf16Encode(s)) == Some(s)
  {
    if s != "" {
      Utf16CharDecodes(s[0], Utf16Encode(s[1..]));
      Utf16RoundTrip(s[1..]);
      assert s == [s[0]] + s[1..];
    }
  }

  // ----- base64 -----

  function Symbol(n: int): (c: char)
    requires 0 <= n < 64
    ensures SymbolValue(c) == n && c != '=' && c != '-' && c != '&' && c != ',' && Printable(c)
  {
    if n < 26 then (65 + n) as char
    else if n < 52 then (71 + n) as char
    else if n < 62 then (n - 4) as char
    else if n == 62 then '+' else '/'
  }

  /** The value of a base64 symbol; 64 for any other character. */
  function SymbolValue(c: char): (n: int)
    ensures 0 <= n <= 64
  {
    if 'A' <= c <= 'Z' then c as int - 65
    else if 'a' <= c <= 'z' then c as int - 71
    else if '0' <= c <= '9' then c as int + 4
    else if c == '+' then 62
    else if c == '/' then 63
    else 64
  }

  /** The alphabet of section 4 of RFC 4648, as a table. */
  const ALPHABET := "ABCDEFGHIJKLMNOPQRSTUVWXYZabcdefghijklmnopqrstuvwxyz0123456789+/"

  /** Arithmetic on character codes reads the table: symbol `n` is its entry `n`, and only its entries have a value. */
  lemma SymbolsAreTheAlphabet()
    ensures |ALPHABET| == 64
    ensures forall n :: 0 <= n < 64 ==> Symbol(n) == ALPHABET[n] && SymbolValue(ALPHABET[n]) == n
    ensures forall c: char :: SymbolValue(c) == 64 <==> c !in ALPHABET
  {
    SymbolInTable(0);
    forall n | 0 <= n < 64 ensures Symbol(n) == ALPHABET[n] {
      SymbolInTable(n);
    }
    hide ALPHABET;
    forall c: char ensures SymbolValue(c) == 64 <==> c !in ALPHABET {
      if SymbolValue(c) < 64 {
        ValueSymbol(c);
        assert ALPHABET[SymbolValue(c)] == c;
      }
    }
  }

  lemma SymbolInTable(n: int)
    requires 0 <= n < 64
    ensures |ALPHABET| == 64 && Symbol(n) == ALPHABET[n]
  {
    var upper, lower, rest := "ABCDEFGHIJKLMNOPQRSTUVWXYZ", "abcdefghijklmnopqrstuvwxyz", "0123456789+/";
    AlphabetParts();
    hide ALPHABET;
    assert |ALPHABET| == 64;
    assert n < 26 ==> upper[n] == (65 + n) as char;
    assert 26 <= n < 52 ==> lower[n - 26] == (71 + n) as char;
    assert 52 <= n ==> rest[n - 52] == if n < 62 then (n - 4) as char else if n == 62 then '+' else '/';
  }

  lemma AlphabetParts()
    ensures ALPHABET == "ABCDEFGHIJKLMNOPQRSTUVWXYZ" + "abcdefghijklmnopqrstuvwxyz" + "0123456789+/"
  {
    LettersParts();
    var letters := "ABCDEFGHIJKLMNOPQRSTUVWXYZabcdefghijklmnopqrstuvwxyz";
    assert ALPHABET == letters + "0123456789+/";
  }

  lemma LettersParts()
    ensures "ABCDEFGHIJKLMNOPQRSTUVWXYZabcdefghijklmnopqrstuvwxyz" ==
            "ABCDEFGHIJKLMNOPQRSTUVWXYZ" + "abcdefghijklmnopqrstuvwxyz"
  {
  }

  lemma ValueSymbol(c: char)
    requires SymbolValue(c) < 64
    ensures Symbol(SymbolValue(c)) == c
  {
  }

  function Base64Encode(b: seq<int>): string
    requires IsBytes(b)
  {
    if |b| == 0 then ""
    else if |b| == 1 then [Symbol(b[0] / 4), Symbol(b[0] % 4 * 16), '=', '=']
    else if |b| == 2 then
      [Symbol(b[0] / 4), Symbol(b[0] % 4 * 16 + b[1] / 16), Symbol(b[1] % 16 * 4), '=']
    else
      Base64Group(b[0], b[1], b[2]) + Base64Encode(b[3..])
  }

  function Base64Group(x: int, y: int, z: int): (g: string)
    requires 0 <= x < 256 && 0 <= y < 256 && 0 <= z < 256
    ensures |g| == 4
  {
    [Symbol(x / 4), Symbol(x % 4 * 16 + y / 16), Symbol(y % 16 * 4 + z / 64), Symbol(z % 64)]
  }

  /** The octet completed by a symbol of value `v` at position `quad` of its group. */
  function Octet(quad: nat, left: int, v: int): int {
    if quad == 1 then left * 4 + v / 16 else if quad == 2 then left * 16 + v / 4 else left * 64 + v
  }

  function Emit(quad: nat, left: int, v: int, rest: Option<seq<int>>): Option<seq<int>> {
    if quad == 0 || rest.None? then rest else Some([Octet(quad, left, v)] + rest.value)
  }

  /** The bits of a symbol that belong to the next octet. */
  function Carry(quad: nat, v: int): int {
    if quad == 0 then v else if quad == 1 then v % 16 else if quad == 2 then v % 4 else 0
  }

  /**
    The lenient decoder of the standard library: characters outside the alphabet are skipped, and a
    pad that completes a group ends the input.  `quad` is the position inside the current group,
    `left` the bits carried over, `pads` the pads seen since the last symbol.
  */
  function Base64Decode(s: string, quad: nat, left: int, pads: nat): (r: Option<seq<int>>)
    requires quad < 4 && 0 <= left < 64
    requires (quad == 2 ==> left < 16) && (quad == 3 ==> left < 4)
    ensures r.Some? ==> IsBytes(r.value)
    decreases |s|
  {
    if s == "" then if quad == 0 then Some([]) else None
    else if s[0] == '=' then
      if quad >= 2 && quad + pads + 1 >= 4 then Some([])
      else Base64Decode(s[1..], quad, left, if quad >= 2 then pads + 1 else pads)
    else
      var v := SymbolValue(s[0]);
      if v == 64 then Base64Decode(s[1..], quad, left, pads)
      else Emit(quad, left, v, Base64Decode(s[1..], (quad + 1) % 4, Carry(quad, v), 0))
  }

  lemma SymbolDecodes(n: int, rest: string, quad: nat, left: int)
    requires quad < 4 && 0 <= left < 64 && 0 <= n < 64
    requires (quad == 2 ==> left < 16) && (quad == 3 ==> left < 4)
    ensures Base64Decode([Symbol(n)] + rest, quad, left, 0) ==
            Emit(quad, left, n, Base64Decode(rest, (quad + 1) % 4, Carry(quad, n), 0))
  {
    assert ([Symbol(n)] + rest)[1..] == rest;
  }

  /** Splitting octets into sextets and gluing them back loses nothing. */
  lemma SextetsGlue(x: int, y: int, z: int)
    requires 0 <= x < 256 && 0 <= y < 256 && 0 <= z < 256
    ensures var q1, q2 := x % 4 * 16 + y / 16, y % 16 * 4 + z / 64;
            && Octet(1, x / 4, q1) == x && Carry(1, q1) == y / 16
            && Octet(2, y / 16, q2) == y && Carry(2, q2) == z / 64
            && Octet(3, z / 64, z % 64) == z
  {
  }

  /** Four symbols in a row, whatever their values. */
  lemma FourSymbolsDecode(n0: int, n1: int, n2: int, n3: int, rest: string)
    requires 0 <= n0 < 64 && 0 <= n1 < 64 && 0 <= n2 < 64 && 0 <= n3 < 64
    ensures Base64Decode([Symbol(n0)] + ([Symbol(n1)] + ([Symbol(n2)] + ([Symbol(n3)] + rest))), 0, 0, 0) ==
            Emit(1, n0, n1, Emit(2, Carry(1, n1), n2, Emit(3, Carry(2, n2), n3, Base64Decode(rest, 0, 0, 0))))
  {
    hide Symbol, Base64Decode, Octet;
    assert Carry(0, n0) == n0 && 0 <= Carry(1, n1) < 16 && 0 <= Carry(2, n2) < 4 && Carry(3, n3) == 0;
    hide Carry;
    SymbolDecodes(n3, rest, 3, Carry(2, n2));
    SymbolDecodes(n2, [Symbol(n3)] + rest, 2, Carry(1, n1));
    SymbolDecodes(n1, [Symbol(n2)] + ([Symbol(n3)] + rest), 1, n0);
    SymbolDecodes(n0, [Symbol(n1)] + ([Symbol(n2)] + ([Symbol(n3)] + rest)), 0, 0);
  }

  lemma GroupSymbols(x: int, y: int, z: int, rest: string)
    requires 0 <= x < 256 && 0 <= y < 256 && 0 <= z < 256
    ensures Base64Group(x, y, z) + rest ==
            [Symbol(x / 4)] + ([Symbol(x % 4 * 16 + y / 16)] + ([Symbol(y % 16 * 4 + z / 64)] + ([Symbol(z % 64)] + rest)))
  {
    hide Symbol;
  }

  lemma FullGroupDecodes(x: int, y: int, z: int, rest: string)
    requires 0 <= x < 256 && 0 <= y < 256 && 0 <= z < 256
    ensures var r := Base64Decode(rest, 0, 0, 0);
            Base64Decode(Base64Group(x, y, z) + rest, 0, 0, 0) == if r.None? then None else Some([x, y, z] + r.value)
  {
    hide Symbol, Base64Decode, Base64Group, Octet, Carry;
    var r := Base64Decode(rest, 0, 0, 0);
    GroupSymbols(x, y, z, rest);
    FourSymbolsDecode(x / 4, x % 4 * 16 + y / 16, y % 16 * 4 + z / 64, z % 64, rest);
    SextetsGlue(x, y, z);
    if r.Some? {
      assert [x] + ([y] + ([z] + r.value)) == [x, y, z] + r.value;
    }
  }

  lemma OneOctetDecodes(x: int)
    requires 0 <= x < 256
    ensures Base64Decode(Base64Encode([x]), 0, 0, 0) == Some([x])
  {
    var g := Base64Encode([x]);
    assert "=="[1..] == "=";
    assert Base64Decode("==", 2, 0, 0) == Some([]);
    SextetsGlue(x, 0, 0);
    SymbolDecodes(x % 4 * 16, "==", 1, x / 4);
    assert [x] + [] == [x];
    SymbolDecodes(x / 4, [g[1]] + "==", 0, 0);
    assert g == [g[0]] + ([g[1]] + "==");
  }

  lemma TwoOctetsText(x: int, y: int)
    requires 0 <= x < 256 && 0 <= y < 256
    ensures Base64Encode([x, y]) ==
            [Symbol(x / 4)] + ([Symbol(x % 4 * 16 + y / 16)] + ([Symbol(y % 16 * 4)] + "="))
    ensures Base64Decode("=", 3, 0, 0) == Some([])
  {
    hide Symbol;
  }

  lemma TwoOctetsDecode(x: int, y: int)
    requires 0 <= x < 256 && 0 <= y < 256
    ensures Base64Decode(Base64Encode([x, y]), 0, 0, 0) == Some([x, y])
  {
    hide Symbol, Base64Decode, Base64Encode;
    var s1, s2 := Symbol(x % 4 * 16 + y / 16), Symbol(y % 16 * 4);
    TwoOctetsText(x, y);
    SextetsGlue(x, y, 0);
    SymbolDecodes(y % 16 * 4, "=", 2, y / 16);
    SymbolDecodes(x % 4 * 16 + y / 16, [s2] + "=", 1, x / 4);
    SymbolDecodes(x / 4, [s1] + ([s2] + "="), 0, 0);
    assert [y] + [] == [y] && [x] + [y] == [x, y];
  }

  lemma {:induction false} Base64RoundTrip(b: seq<int>)
    requires IsBytes(b)
    ensures Base64Decode(Base64Encode(b), 0, 0, 0) == Some(b)
  {
    if |b| == 1 {
      OneOctetDecodes(b[0]);
      assert b == [b[0]];
    } else if |b| == 2 {
      TwoOctetsDecode(b[0], b[1]);
      assert b == [b[0], b[1]];
    } else if |b| >= 3 {
      Base64RoundTrip(b[3..]);
      FullGroupDecodes(b[0], b[1], b[2], Base64Encode(b[3..]));
      assert b == [b[0], b[1], b[2]] + b[3..];
    }
  }
}
