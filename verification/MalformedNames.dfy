/** What the decoder makes of shifted sections that no encoder writes. */
module MalformedNames {
  import opened Wrappers
  import opened Text
  import opened Encodings
  import opened MailboxName

  predicate InAlphabet(c: char) { SymbolValue(c) < 64 }

  /** How many characters of the base64 alphabet there are. */
  function Symbols(s: string): nat {
    if s == "" then 0 else Symbols(s[..|s| - 1]) + if InAlphabet(s[|s| - 1]) then 1 else 0
  }

  /** The position inside its group after reading `s`. */
  function Position(s: string, quad: nat): nat { (quad + Symbols(s)) % 4 }

  /** The pads counted since the last symbol, as far as they can close a group. */
  function PadRun(s: string, quad: nat, pads: nat): nat {
    if s == "" then pads
    else
      var front, c := s[..|s| - 1], s[|s| - 1];
      if InAlphabet(c) then 0
      else PadRun(front, quad, pads) + if c == '=' && Position(front, quad) >= 2 then 1 else 0
  }

  /** The character at `i` is the pad that completes a group. */
  predicate ClosesAt(s: string, i: nat, quad: nat, pads: nat) {
    && i < |s| && s[i] == '=' && Position(s[..i], quad) >= 2
    && Position(s[..i], quad) + PadRun(s[..i], quad, pads) + 1 >= 4
  }

  predicate Closes(s: string, quad: nat, pads: nat) {
    exists i :: 0 <= i < |s| && ClosesAt(s, i, quad, pads)
  }

  lemma {:induction false} FirstCharCounts(s: string, n: nat, quad: nat, pads: nat)
    requires 0 < n <= |s| && quad < 4
    ensures var c := s[0];
            var quad', pads' := if InAlphabet(c) then (quad + 1) % 4 else quad,
                                if InAlphabet(c) then 0 else if c == '=' && quad >= 2 then pads + 1 else pads;
            && Position(s[..n], quad) == Position(s[1..][..n - 1], quad')
            && PadRun(s[..n], quad, pads) == PadRun(s[1..][..n - 1], quad', pads')
  {
    hide InAlphabet;
    if n == 1 {
      assert s[..1] == [s[0]] && s[..1][..0] == "" && s[1..][..0] == "";
      assert Symbols("") == 0;
    } else {
      FirstCharCounts(s, n - 1, quad, pads);
      var whole, rest := s[..n], s[1..][..n - 1];
      assert whole[..n - 1] == s[..n - 1] && rest[..n - 2] == s[1..][..n - 2] && whole[n - 1] == rest[n - 2];
      hide Position;
      LastCharCounts(whole, quad, pads);
      LastCharCounts(rest, if InAlphabet(s[0]) then (quad + 1) % 4 else quad,
                     if InAlphabet(s[0]) then 0 else if s[0] == '=' && quad >= 2 then pads + 1 else pads);
      hide PadRun;
    }
  }

  lemma LastCharCounts(s: string, quad: nat, pads: nat)
    requires s != "" && quad < 4
    ensures var front, c := s[..|s| - 1], s[|s| - 1];
            && Position(s, quad) == (Position(front, quad) + if InAlphabet(c) then 1 else 0) % 4
            && PadRun(s, quad, pads) ==
               if InAlphabet(c) then 0
               else PadRun(front, quad, pads) + if c == '=' && Position(front, quad) >= 2 then 1 else 0
  {
  }

  /** Decoding succeeds exactly when the symbols fill their groups or some pad completes one. */
  lemma {:induction false} OctetsExistIff(s: string, quad: nat, left: int, pads: nat)
    requires quad < 4 && 0 <= left < 64 && (quad == 2 ==> left < 16) && (quad == 3 ==> left < 4)
    ensures Base64Decode(s, quad, left, pads).Some? <==>
            Position(s, quad) == 0 || Closes(s, quad, pads)
    decreases |s|
  {
    if s != "" {
      var c := s[0];
      var quad', pads' := if InAlphabet(c) then (quad + 1) % 4 else quad,
                          if InAlphabet(c) then 0 else if c == '=' && quad >= 2 then pads + 1 else pads;
      OctetsExistIff(s[1..], quad', if InAlphabet(c) then Carry(quad, SymbolValue(c)) else left, pads');
      FirstCharCounts(s, |s|, quad, pads);
      assert s[..|s|] == s && s[1..][..|s| - 1] == s[1..];
      assert ClosesAt(s, 0, quad, pads) <==> c == '=' && quad >= 2 && quad + pads + 1 >= 4 by { assert s[..0] == ""; }
      forall i: nat ensures ClosesAt(s, i + 1, quad, pads) <==> ClosesAt(s[1..], i, quad', pads') {
        if i + 1 < |s| {
          FirstCharCounts(s, i + 1, quad, pads);
        }
      }
      hide Position, PadRun;
      ClosesSomewhere(s, quad, pads, quad', pads');
    }
  }

  lemma ClosesSomewhere(s: string, quad: nat, pads: nat, quad': nat, pads': nat)
    requires s != "" && forall i: nat :: ClosesAt(s, i + 1, quad, pads) <==> ClosesAt(s[1..], i, quad', pads')
    ensures Closes(s, quad, pads) <==> ClosesAt(s, 0, quad, pads) || Closes(s[1..], quad', pads')
  {
    hide Position, PadRun;
    if Closes(s, quad, pads) {
      var i :| 0 <= i < |s| && ClosesAt(s, i, quad, pads);
      assert i > 0 ==> ClosesAt(s[1..], i - 1, quad', pads');
    }
    if Closes(s[1..], quad', pads') {
      var i :| 0 <= i < |s[1..]| && ClosesAt(s[1..], i, quad', pads');
      assert ClosesAt(s, i + 1, quad, pads);
    }
  }

  lemma Utf16UnitEncodes(b: seq<int>)
    requires IsBytes(b) && |b| >= 2
    ensures var unit := b[0] * 256 + b[1];
            && (unit < 0xD800 || unit >= 0xE000 ==> Utf16Char(unit as char) == b[..2])
            && (0xD800 <= unit < 0xDC00 && |b| >= 4 && 0xDC00 <= b[2] * 256 + b[3] < 0xE000 ==>
                Utf16Char((0x10000 + (unit - 0xD800) * 0x400 + (b[2] * 256 + b[3] - 0xDC00)) as char) == b[..4])
  {
  }

  lemma {:induction false} Utf16Image(b: seq<int>)
    requires IsBytes(b) && Utf16Decode(b).Some?
    ensures Utf16Encode(Utf16Decode(b).value) == b
  {
    if b != [] {
      Utf16UnitEncodes(b);
      hide Utf16Char;
      var n := if 0xD800 <= b[0] * 256 + b[1] < 0xE000 then 4 else 2;
      Utf16Image(b[n..]);
      var s, rest := Utf16Decode(b).value, Utf16Decode(b[n..]).value;
      assert s[0] as int >= 0 && s[1..] == rest;
      assert b == b[..n] + b[n..];
    }
  }

  /** Octets are UTF-16 when they are the encoding of some text. */
  ghost predicate IsUtf16(b: seq<int>) { exists s :: Utf16Encode(s) == b }

  /** The strict decoder accepts exactly the encodings. */
  lemma Utf16DecodesIff(b: seq<int>)
    requires IsBytes(b)
    ensures Utf16Decode(b).Some? <==> IsUtf16(b)
  {
    if Utf16Decode(b).Some? {
      Utf16Image(b);
    }
    if IsUtf16(b) {
      var s :| Utf16Encode(s) == b;
      Utf16RoundTrip(s);
    }
  }

  /** What is left for the decoder once the pads are added. */
  function Padded(encoded: string): string { Repad(Replace(encoded, ',', "/")) }

  predicate HasOctets(t: string) {
    Position(t, 0) == 0 || Closes(t, 0, 0)
  }

  /**
    When a section is kept as received, whatever it is: it holds a character beyond ASCII, or its
    symbols and pads do not make up whole octets, or those octets are not UTF-16.
  */
  lemma SectionKeptIff(encoded: string)
    requires encoded != ""
    ensures SectionOctets(encoded).Some? <==> Ascii(encoded) && HasOctets(Padded(encoded))
    ensures (forall raw :: DecodeShifted(encoded, raw) == raw) <==>
            || (exists i :: 0 <= i < |encoded| && encoded[i] as int > 127)
            || !HasOctets(Padded(encoded)) || !IsUtf16(SectionOctets(encoded).value)
  {
    assert Ascii(encoded) <==> forall i :: 0 <= i < |encoded| ==> encoded[i] as int <= 127;
    var t := Padded(encoded);
    PaddedAscii(encoded);
    OctetsExistIff(t, 0, 0, 0);
    hide Replace, Repad, Position, Closes, Base64Decode, Utf16Decode, Ascii;
    assert SectionOctets(encoded) == if Ascii(t) then Base64Decode(t, 0, 0, 0) else None;
    if SectionOctets(encoded).Some? {
      Utf16DecodesIff(SectionOctets(encoded).value);
    }
    if SectionOctets(encoded).Some? && Utf16Decode(SectionOctets(encoded).value).Some? {
      var text := Utf16Decode(SectionOctets(encoded).value).value;
      assert DecodeShifted(encoded, text + "x") == text;
      assert |text + "x"| == |text| + 1;
    }
  }

  lemma {:induction false} ReplacedAt(s: string)
    ensures var t := Replace(s, ',', "/");
            |t| == |s| && forall i :: 0 <= i < |s| ==> t[i] == if s[i] == ',' then '/' else s[i]
  {
    if s != "" {
      ReplacedAt(s[1..]);
      var head := if s[0] == ',' then "/" else [s[0]];
      assert Replace(s, ',', "/") == head + Replace(s[1..], ',', "/");
    }
  }

  lemma PaddedAscii(encoded: string)
    ensures Ascii(Padded(encoded)) <==> Ascii(encoded)
  {
    ReplacedAt(encoded);
    hide Replace;
    var t, u := Replace(encoded, ',', "/"), Padded(encoded);
    assert forall i :: 0 <= i < |t| ==> u[i] == t[i];
    assert forall i :: |t| <= i < |u| ==> u[i] == '=';
  }

  /** A section without `=`: counting its symbols and its other characters decides. */
  lemma PlainSectionDecodesIff(encoded: string)
    requires encoded != "" && Ascii(encoded) && '=' !in encoded
    ensures var s := Symbols(Replace(encoded, ',', "/"));
            var others := |encoded| - s;
            var p := (4 - (s + others) % 4) % 4;
            SectionOctets(encoded).Some? <==> s % 4 == 0 || (s % 4 == 2 && p >= 2) || (s % 4 == 3 && p >= 1)
  {
    hide Replace, Repeat, Symbols, Base64Decode, Ascii;
    var t := Replace(encoded, ',', "/");
    var p := (4 - |t| % 4) % 4;
    assert |t| == |encoded| by { ReplacedAt(encoded); }
    NoPadIn(encoded);
    PaddedAscii(encoded);
    assert Padded(encoded) == t + Repeat('=', p);
    PadsClose(t, p, 0, 0);
  }

  lemma {:induction false} NoPadIn(s: string)
    requires '=' !in s
    ensures '=' !in Replace(s, ',', "/")
  {
    if s != "" {
      NoPadIn(s[1..]);
    }
  }

  lemma {:induction false} PadsClose(s: string, p: nat, quad: nat, left: int)
    requires quad < 4 && 0 <= left < 64 && (quad == 2 ==> left < 16) && (quad == 3 ==> left < 4)
    requires '=' !in s
    ensures Base64Decode(s + Repeat('=', p), quad, left, 0).Some? <==>
            var q := Position(s, quad); q == 0 || (q == 2 && p >= 2) || (q == 3 && p >= 1)
    decreases |s|
  {
    if s == "" {
      assert s + Repeat('=', p) == Repeat('=', p);
      OnlyPads(p, quad, left, 0);
    } else {
      var c := s[0];
      assert (s + Repeat('=', p))[1..] == s[1..] + Repeat('=', p);
      FirstCharCounts(s, |s|, quad, 0);
      assert s[..|s|] == s && s[1..][..|s| - 1] == s[1..];
      PadsClose(s[1..], p, if InAlphabet(c) then (quad + 1) % 4 else quad,
                if InAlphabet(c) then Carry(quad, SymbolValue(c)) else left);
    }
  }

  lemma {:induction false} OnlyPads(p: nat, quad: nat, left: int, pads: nat)
    requires quad < 4 && 0 <= left < 64 && (quad == 2 ==> left < 16) && (quad == 3 ==> left < 4)
    ensures Base64Decode(Repeat('=', p), quad, left, pads).Some? <==> quad == 0 || (quad >= 2 && p >= 1 && quad + pads + p >= 4)
    decreases p
  {
    if p > 0 {
      assert Repeat('=', p)[1..] == Repeat('=', p - 1);
      OnlyPads(p - 1, quad, left, if quad >= 2 then pads + 1 else pads);
    }
  }

  /** Inside the decoder an ASCII character outside the alphabet vanishes, wherever it stands. */
  lemma {:induction false} ForeignCharsVanish(a: string, c: char, b: string, quad: nat, left: int, pads: nat)
    requires quad < 4 && 0 <= left < 64 && (quad == 2 ==> left < 16) && (quad == 3 ==> left < 4)
    requires c < 128 as char && !InAlphabet(c) && c != '='
    ensures Base64Decode(a + [c] + b, quad, left, pads) == Base64Decode(a + b, quad, left, pads)
    decreases |a|
  {
    if a == "" {
      assert a + [c] + b == [c] + b && a + b == b && ([c] + b)[1..] == b;
    } else {
      var rest := a[1..] + [c] + b;
      assert (a + [c] + b)[1..] == rest && (a + b)[1..] == a[1..] + b;
      if a[0] == '=' {
        if !(quad >= 2 && quad + pads + 1 >= 4) {
          ForeignCharsVanish(a[1..], c, b, quad, left, if quad >= 2 then pads + 1 else pads);
        }
      } else if SymbolValue(a[0]) == 64 {
        ForeignCharsVanish(a[1..], c, b, quad, left, pads);
      } else {
        ForeignCharsVanish(a[1..], c, b, (quad + 1) % 4, Carry(quad, SymbolValue(a[0])), 0);
      }
    }
  }

  lemma {:induction false} ReplaceAbsent(s: string, c: char, sub: string)
    requires c !in s
    ensures Replace(s, c, sub) == s
  {
    if s != "" {
      ReplaceAbsent(s[1..], c, sub);
    }
  }

  /** So a malformed name is not always shown as received: these four exclamation marks are dropped. */
  lemma MalformedCanVanish()
    ensures DecodeShifted("AGE!!!!", "&AGE!!!!-") == "a"
  {
    hide Replace, Repad, Repeat, Base64Decode, Utf16Decode;
    assert Ascii("AGE!!!!=");
    assert Replace("AGE!!!!", ',', "/") == "AGE!!!!" by { ReplaceAbsent("AGE!!!!", ',', "/"); }
    assert Repad("AGE!!!!") == "AGE!!!!=" by { OnePad("AGE!!!!"); }
    FourMarksVanish();
    assert Base64Decode("AGE=", 0, 0, 0) == Some([0, 97]) by { TwoOctets(); }
    assert Utf16Decode([0, 97]) == Some("a") by { OneCharUtf16(); }
  }

  lemma OnePad(s: string)
    requires |s| % 4 == 3
    ensures Repad(s) == s + "="
  {
    assert Repeat('=', 1) == "=";
  }

  lemma TwoOctets()
    ensures Base64Decode("AGE=", 0, 0, 0) == Some([0, 97])
  {
    hide Base64Decode;
    TwoOctetsDecode(0, 97);
    assert Base64Encode([0, 97]) == "AGE=";
  }

  lemma OneCharUtf16()
    ensures Utf16Decode([0, 97]) == Some("a")
  {
    assert Utf16Encode("a") == [0, 97] by { assert "a"[1..] == ""; }
    hide Utf16Decode;
    Utf16RoundTrip("a");
  }

  lemma FourMarksVanish()
    ensures Base64Decode("AGE!!!!=", 0, 0, 0) == Base64Decode("AGE=", 0, 0, 0)
  {
    hide Base64Decode;
    ForeignCharsVanish("AGE!!!", '!', "=", 0, 0, 0);
    assert "AGE!!!" + ['!'] + "=" == "AGE!!!!=" && "AGE!!!" + "=" == "AGE!!!=";
    ForeignCharsVanish("AGE!!", '!', "=", 0, 0, 0);
    assert "AGE!!" + ['!'] + "=" == "AGE!!!=" && "AGE!!" + "=" == "AGE!!=";
    ForeignCharsVanish("AGE!", '!', "=", 0, 0, 0);
    assert "AGE!" + ['!'] + "=" == "AGE!!=" && "AGE!" + "=" == "AGE!=";
    ForeignCharsVanish("AGE", '!', "=", 0, 0, 0);
    assert "AGE" + ['!'] + "=" == "AGE!=" && "AGE" + "=" == "AGE=";
  }

  /** While one exclamation mark leaves the section as received: the octets no longer come out whole. */
  lemma MalformedCanStay(raw: string)
    ensures DecodeShifted("AGE!", raw) == raw
  {
    hide Replace, Symbols, SectionOctets;
    assert Replace("AGE!", ',', "/") == "AGE!" by { ReplaceAbsent("AGE!", ',', "/"); }
    assert Symbols("AGE!") == 3 by { ThreeSymbols(); }
    PlainSectionDecodesIff("AGE!");
  }

  lemma ThreeSymbols()
    ensures Symbols("AGE!") == 3
  {
    assert "AGE!"[..3] == "AGE" && "AGE"[..2] == "AG" && "AG"[..1] == "A" && "A"[..0] == "";
  }
}
