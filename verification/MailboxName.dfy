/**
  IMAP mailbox names on the wire.

  Names are sent in modified UTF-7 (section 5.1.3 of RFC 3501): runs of characters outside
  printable ASCII become `&` base64 `-`, over UTF-16 (section 2 of RFC 2781) in network byte order,
  with base64 as in section 4 of RFC 4648 but without padding and with `,` for `/`.  The result is
  a quoted string (section 4.3 of RFC 3501).  A wire octet is a character below 256.
*/
module MailboxName {
  import opened Wrappers
  import opened Text
  import opened Encodings

  // ----- stripping, re-padding and the `/` for `,` exchange -----

  /** `rstrip` of one character. */
  function StripEnd(s: string, c: char): (r: string)
    ensures r <= s
  {
    if s != "" && s[|s| - 1] == c then StripEnd(s[..|s| - 1], c) else s
  }

  /** Base64 with neither padding nor `/`, as mailbox names use it. */
  function ModifiedBase64(b: seq<int>): string
    requires IsBytes(b)
  {
    Replace(StripEnd(Base64Encode(b), '='), '/', ",")
  }

  function Repeat(c: char, n: nat): string { seq(n, _ => c) }

  function Repad(s: string): string {
    s + Repeat('=', (4 - |s| % 4) % 4)
  }

  ghost predicate IsBody(s: string) {
    forall i :: 0 <= i < |s| ==> SymbolValue(s[i]) < 64
  }

  /** Padding is a function of the length of the unpadded text, so stripping it loses nothing. */
  lemma {:induction false} Base64Shape(b: seq<int>) returns (body: string)
    requires IsBytes(b)
    ensures IsBody(body) && Base64Encode(b) == Repad(body) && (b != [] ==> body != "")
  {
    if |b| < 3 {
      body := ShortShape(b);
    } else {
      var rest := Base64Shape(b[3..]);
      var group := Base64Group(b[0], b[1], b[2]);
      assert IsBody(group);
      hide Symbol, Base64Group, Repad, SymbolValue;
      body := group + rest;
      RepadGroup(group, rest);
    }
  }

  lemma ShortShape(b: seq<int>) returns (body: string)
    requires IsBytes(b) && |b| < 3
    ensures IsBody(body) && Base64Encode(b) == Repad(body) && (b != [] ==> body != "")
  {
    hide Symbol, SymbolValue;
    if b == [] {
      body := "";
    } else if |b| == 1 {
      body := [Symbol(b[0] / 4), Symbol(b[0] % 4 * 16)];
    } else {
      body := [Symbol(b[0] / 4), Symbol(b[0] % 4 * 16 + b[1] / 16), Symbol(b[1] % 16 * 4)];
    }
    RepadShort(body);
  }

  lemma RepadShort(body: string)
    ensures |body| == 2 ==> Repad(body) == [body[0], body[1], '=', '=']
    ensures |body| == 3 ==> Repad(body) == [body[0], body[1], body[2], '=']
  {
  }

  lemma RepadGroup(group: string, rest: string)
    requires |group| == 4
    ensures Repad(group + rest) == group + Repad(rest)
  {
    assert |group + rest| % 4 == |rest| % 4;
    var pads := Repeat('=', (4 - |rest| % 4) % 4);
    assert (group + rest) + pads == group + (rest + pads);
  }

  lemma {:induction false} StripEndOfPads(s: string, c: char, n: nat)
    requires s == "" || s[|s| - 1] != c
    ensures StripEnd(s + Repeat(c, n), c) == s
  {
    var padded := s + Repeat(c, n);
    if n == 0 {
      assert padded == s;
    } else {
      assert padded[..|padded| - 1] == s + Repeat(c, n - 1);
      StripEndOfPads(s, c, n - 1);
    }
  }

  /** Exchanging `/` for `,` is undone by the opposite exchange when the text has no `,`. */
  lemma {:induction false} CommaRoundTrip(s: string)
    requires IsBody(s)
    ensures var t := Replace(s, '/', ",");
            && |t| == |s| && Replace(t, ',', "/") == s
            && forall i :: 0 <= i < |t| ==> Printable(t[i]) && t[i] != '-' && t[i] != '&'
  {
    if s != "" {
      var t := Replace(s, '/', ",");
      CommaRoundTrip(s[1..]);
      assert t == [if s[0] == '/' then ',' else s[0]] + Replace(s[1..], '/', ",");
      assert t[1..] == Replace(s[1..], '/', ",");
      assert Replace(t, ',', "/") == [s[0]] + Replace(t[1..], ',', "/");
    }
  }

  predicate Ascii(s: string) {
    forall i :: 0 <= i < |s| ==> s[i] < 128 as char
  }

  /** The octets of a shifted section; a character beyond ASCII is refused before anything is decoded. */
  function SectionOctets(encoded: string): Option<seq<int>> {
    var b64 := Repad(Replace(encoded, ',', "/"));
    if Ascii(b64) then Base64Decode(b64, 0, 0, 0) else None
  }

  /** What the decoder does with the text between `&` and `-`; undecodable text is kept verbatim. */
  function DecodeShifted(encoded: string, raw: string): string {
    if encoded == "" then "&"
    else
      var octets := SectionOctets(encoded);
      if octets.None? then raw
      else
        var text := Utf16Decode(octets.value);
        if text.None? then raw else text.value
  }

  lemma ShiftedRoundTrip(s: string, raw: string)
    requires s != ""
    ensures var encoded := ModifiedBase64(Utf16Encode(s));
            && DecodeShifted(encoded, raw) == s
            && forall i :: 0 <= i < |encoded| ==> Printable(encoded[i]) && encoded[i] != '-' && encoded[i] != '&'
  {
    var octets := Utf16Encode(s);
    var body := Base64Shape(octets);
    StripEndOfPads(body, '=', (4 - |body| % 4) % 4);
    CommaRoundTrip(body);
    assert Ascii(Repad(body)) by { BodyIsAscii(body); }
    Base64RoundTrip(octets);
    Utf16RoundTrip(s);
  }

  lemma BodyIsAscii(body: string)
    requires IsBody(body)
    ensures Ascii(Repad(body))
  {
  }

  // ----- modified UTF-7 -----

  function Flush(buf: string): string {
    if buf == "" then "" else "&" + ModifiedBase64(Utf16Encode(buf)) + "-"
  }

  function Literal(c: char): string {
    if c == '&' then "&-" else [c]
  }

  /** The encoding of `buf + text` when `buf` holds the characters waiting to be shifted. */
  function EncodeFrom(text: string, buf: string): string {
    if text == "" then Flush(buf)
    else if Printable(text[0]) then Flush(buf) + Literal(text[0]) + EncodeFrom(text[1..], "")
    else EncodeFrom(text[1..], buf + [text[0]])
  }

  function Encode(text: string): string { EncodeFrom(text, "") }

  function Decode(text: string): string
    decreases |text|
  {
    if text == "" then ""
    else if text[0] != '&' then
      var j := Find(text, '&');
      text[..j] + Decode(text[j..])
    else
      var j := Find(text, '-');
      if j == |text| then text
      else DecodeShifted(text[1..j], text[..j + 1]) + Decode(text[j + 1..])
  }

  method EncodeMailbox(text: string) returns (wire: string)
    ensures wire == Encode(text)
  {
    hide Flush, Literal;
    wire := "";
    var buf := "";
    var i := 0;
    while i < |text|
      invariant 0 <= i <= |text|
      invariant wire + EncodeFrom(text[i..], buf) == Encode(text)
    {
      var c := text[i];
      assert text[i..][1..] == text[i + 1..];
      if Printable(c) {
        Assoc(wire, Flush(buf) + Literal(c), EncodeFrom(text[i + 1..], ""));
        wire := wire + (Flush(buf) + Literal(c));
        buf := "";
      } else {
        buf := buf + [c];
      }
      i := i + 1;
    }
    wire := wire + Flush(buf);
  }

  method DecodeMailbox(text: string) returns (name: string)
    ensures name == Decode(text)
  {
    hide Decode, DecodeShifted, Find;
    name := "";
    var i := 0;
    EmptyDecodes();
    while i < |text|
      invariant 0 <= i <= |text|
      invariant name + Decode(text[i..]) == Decode(text)
      decreases |text| - i
    {
      var rest := text[i..];
      DecodeStep(rest);
      if rest[0] != '&' {
        var j := Find(rest, '&');
        Assoc(name, rest[..j], Decode(rest[j..]));
        assert rest[j..] == text[i + j..];
        name := name + rest[..j];
        i := i + j;
      } else {
        var j := Find(rest, '-');
        if j == |rest| {
          return name + rest;
        }
        var piece := DecodeShifted(rest[1..j], rest[..j + 1]);
        Assoc(name, piece, Decode(rest[j + 1..]));
        assert rest[j + 1..] == text[i + j + 1..];
        name := name + piece;
        i := i + j + 1;
      }
    }
    EndOfText(name, text[i..]);
  }

  lemma EndOfText(name: string, rest: string)
    requires rest == ""
    ensures name + Decode(rest) == name
  {
  }

  lemma EmptyDecodes()
    ensures Decode("") == ""
  {
  }

  /** One turn of the decoder's loop. */
  lemma DecodeStep(text: string)
    requires text != ""
    ensures text[0] != '&' ==>
              var j := Find(text, '&');
              j > 0 && Decode(text) == text[..j] + Decode(text[j..])
    ensures text[0] == '&' ==>
              var j := Find(text, '-');
              && j > 0
              && Decode(text) == if j == |text| then text
                                 else DecodeShifted(text[1..j], text[..j + 1]) + Decode(text[j + 1..])
  {
    hide DecodeShifted, Find;
  }

  lemma FlushDecodes(buf: string, rest: string)
    ensures Decode(Flush(buf) + rest) == buf + Decode(rest)
  {
    hide Decode, DecodeShifted, ModifiedBase64, Find;
    if buf == "" {
      assert Flush(buf) + rest == rest;
    } else {
      var encoded := ModifiedBase64(Utf16Encode(buf));
      var text := Flush(buf) + rest;
      var j := |encoded| + 1;
      ShiftedRoundTrip(buf, text[..j + 1]);
      assert text[1..j] == encoded && text[j] == '-' && text[j + 1..] == rest;
      FindUnique(text, '-', j);
      DecodeStep(text);
    }
  }

  lemma LiteralDecodes(c: char, rest: string)
    requires Printable(c)
    ensures Decode(Literal(c) + rest) == [c] + Decode(rest)
  {
    var text := Literal(c) + rest;
    if c == '&' {
      FindUnique(text, '-', 1);
      assert text[1..1] == "" && text[2..] == rest;
      DecodeStep(text);
    } else {
      var j := Find(rest, '&');
      assert text[1..] == rest;
      assert Find(text, '&') == 1 + j;
      PlainPrefixDecodes(rest);
      DecodeStep(text);
      hide Decode, Find;
      assert text[1 + j..] == rest[j..] && text[..1 + j] == [c] + rest[..j];
      Assoc([c], rest[..j], Decode(rest[j..]));
    }
  }

  /** Text before the first `&` is copied. */
  lemma PlainPrefixDecodes(text: string)
    ensures var j := Find(text, '&'); Decode(text) == text[..j] + Decode(text[j..])
  {
    if text != "" && text[0] != '&' {
      DecodeStep(text);
    } else {
      assert text[0..] == text;
    }
  }

  lemma {:induction false} EncodeDecodes(text: string, buf: string)
    ensures Decode(EncodeFrom(text, buf)) == buf + text
    decreases |text|
  {
    hide Flush, Literal, Decode;
    if text == "" {
      EmptyDecodes();
      FlushDecodes(buf, "");
      assert Flush(buf) + "" == Flush(buf) && buf + text == buf;
    } else if Printable(text[0]) {
      var rest := EncodeFrom(text[1..], "");
      EncodeDecodes(text[1..], "");
      assert Decode(rest) == text[1..];
      EncodedCharDecodes(buf, text[0], rest);
      assert [text[0]] + text[1..] == text;
    } else {
      EncodeDecodes(text[1..], buf + [text[0]]);
      Assoc(buf, [text[0]], text[1..]);
      assert [text[0]] + text[1..] == text;
    }
  }

  lemma EncodedCharDecodes(buf: string, c: char, rest: string)
    requires Printable(c)
    ensures Decode(Flush(buf) + Literal(c) + rest) == buf + ([c] + Decode(rest))
  {
    hide Flush, Literal, Decode;
    FlushDecodes(buf, Literal(c) + rest);
    LiteralDecodes(c, rest);
    Assoc(Flush(buf), Literal(c), rest);
  }

  lemma FlushIsPrintable(buf: string)
    ensures AllPrintable(Flush(buf))
  {
    if buf != "" {
      ShiftedRoundTrip(buf, "");
    }
  }

  lemma {:induction false} EncodeIsPrintable(text: string, buf: string)
    ensures AllPrintable(EncodeFrom(text, buf))
    decreases |text|
  {
    FlushIsPrintable(buf);
    if text != "" {
      if Printable(text[0]) {
        EncodeIsPrintable(text[1..], "");
      } else {
        EncodeIsPrintable(text[1..], buf + [text[0]]);
      }
    }
  }

  lemma {:induction false} PrintableLength(text: string)
    requires AllPrintable(text)
    ensures |Encode(text)| >= |text|
    ensures Encode(text) == text <==> '&' !in text
    ensures '&' in text ==> |Encode(text)| > |text|
  {
    if text != "" {
      PrintableLength(text[1..]);
      assert Encode(text) == Literal(text[0]) + Encode(text[1..]);
      assert text == [text[0]] + text[1..];
    }
  }

  /** A name travels unchanged exactly when it is printable ASCII without `&`. */
  lemma SentVerbatimIff(name: string)
    ensures Encode(name) == name <==> '&' !in name && forall i :: 0 <= i < |name| ==> ' ' <= name[i] <= '~'
  {
    assert AllPrintable(name) <==> forall i :: 0 <= i < |name| ==> ' ' <= name[i] <= '~';
    EncodeIsPrintable(name, "");
    if AllPrintable(name) {
      PrintableLength(name);
    }
  }

  // ----- quoted strings -----

  /** The single-pass escape of section 4.3 of RFC 3501. */
  function Escape(s: string): string {
    if s == "" then ""
    else (if s[0] == '\\' || s[0] == '"' then ['\\', s[0]] else [s[0]]) + Escape(s[1..])
  }

  function Quote(name: string): string {
    "\"" + Replace(Replace(Encode(name), '\\', "\\\\"), '"', "\\\"") + "\""
  }

  method QuoteMailbox(name: string) returns (token: string)
    ensures token == Quote(name)
  {
    var wire := EncodeMailbox(name);
    token := "\"" + Replace(Replace(wire, '\\', "\\\\"), '"', "\\\"") + "\"";
  }

  /** The second replacement never touches what the first one inserted. */
  lemma {:induction false} TwoReplacesAreOneEscape(s: string)
    ensures Replace(Replace(s, '\\', "\\\\"), '"', "\\\"") == Escape(s)
  {
    if s != "" {
      var head := if s[0] == '\\' then "\\\\" else [s[0]];
      TwoReplacesAreOneEscape(s[1..]);
      ReplaceConcat(head, Replace(s[1..], '\\', "\\\\"), '"', "\\\"");
      assert Replace([s[0]], '"', "\\\"") == if s[0] == '"' then "\\\"" else [s[0]];
      if s[0] == '\\' {
        assert "\\\\"[1..] == "\\" && "\\"[1..] == "";
        assert Replace("\\", '"', "\\\"") == "\\";
        assert Replace("\\\\", '"', "\\\"") == "\\\\";
      }
    }
  }

  /** Undo backslash escapes; a trailing backslash stands for itself. */
  function Unescape(s: string, escaped: bool): string {
    if s == "" then if escaped then "\\" else ""
    else if escaped then [s[0]] + Unescape(s[1..], false)
    else if s[0] == '\\' then Unescape(s[1..], true)
    else [s[0]] + Unescape(s[1..], false)
  }

  /** A backslash gives the character behind it, whichever that is, any other character itself; a last backslash stays. */
  lemma UnescapeIs(c: char, rest: string)
    ensures Unescape("\\" + [c] + rest, false) == [c] + Unescape(rest, false)
    ensures c != '\\' ==> Unescape([c] + rest, false) == [c] + Unescape(rest, false)
    ensures Unescape("\\", false) == "\\" && Unescape("", false) == ""
  {
    assert ("\\" + [c] + rest)[1..] == [c] + rest && ([c] + rest)[1..] == rest;
    assert "\\"[1..] == "";
  }

  function Unquote(token: string): string {
    var value := Strip(token);
    if |value| >= 2 && value[0] == '"' && value[|value| - 1] == '"' then Unescape(value[1..|value| - 1], false)
    else value
  }

  method UnquoteToken(token: string) returns (r: string)
    ensures r == Unquote(token)
  {
    hide Strip;
    var value := Strip(token);
    if |value| >= 2 && value[0] == '"' && value[|value| - 1] == '"' {
      r := UnescapeLoop(value[1..|value| - 1]);
    } else {
      r := value;
    }
  }

  method UnescapeLoop(value: string) returns (r: string)
    ensures r == Unescape(value, false)
  {
    r := "";
    var escaped := false;
    var i := 0;
    while i < |value|
      invariant 0 <= i <= |value|
      invariant r + Unescape(value[i..], escaped) == Unescape(value, false)
    {
      var rest := value[i..];
      assert rest[0] == value[i] && rest[1..] == value[i + 1..];
      if !escaped && value[i] == '\\' {
        escaped := true;
      } else {
        Assoc(r, [value[i]], Unescape(value[i + 1..], false));
        r := r + [value[i]];
        escaped := false;
      }
      i := i + 1;
    }
    if escaped {
      r := r + "\\";
    }
  }

  lemma {:induction false} UnescapeEscape(s: string)
    ensures Unescape(Escape(s), false) == s
  {
    if s != "" {
      UnescapeEscape(s[1..]);
      var e := Escape(s);
      assert e != "";
      assert s == [s[0]] + s[1..];
      if s[0] == '\\' || s[0] == '"' {
        assert e[1..] == [s[0]] + Escape(s[1..]) && e[1..][1..] == Escape(s[1..]);
      } else {
        assert e[1..] == Escape(s[1..]);
      }
    }
  }

  lemma {:induction false} EscapeIsPrintable(s: string)
    requires AllPrintable(s)
    ensures AllPrintable(Escape(s))
  {
    if s != "" {
      EscapeIsPrintable(s[1..]);
    }
  }

  lemma UnquoteQuote(name: string)
    ensures Unquote(Quote(name)) == Encode(name)
    ensures AllPrintable(Quote(name))
  {
    var wire := Encode(name);
    TwoReplacesAreOneEscape(wire);
    UnescapeEscape(wire);
    EncodeIsPrintable(name, "");
    EscapeIsPrintable(wire);
    StripTight(Quote(name));
    assert Quote(name)[1..|Quote(name)| - 1] == Escape(wire);
  }

  // ----- the whole path -----

  /** `bytes.decode("ascii", errors="replace")`. */
  function AsciiReplace(s: string): (r: string)
    ensures |r| == |s|
  {
    seq(|s|, i requires 0 <= i < |s| => if s[i] < 128 as char then s[i] else 0xFFFD as char)
  }

  lemma AsciiReplaceIs(s: string, i: nat)
    requires i < |s|
    ensures s[i] as int <= 127 ==> AsciiReplace(s)[i] == s[i]
    ensures s[i] as int > 127 ==> AsciiReplace(s)[i] == 0xFFFD as char
  {
  }

  function Received(token: string): string {
    Decode(AsciiReplace(Unquote(token)))
  }

  /**
    Every mailbox name, of any Unicode scalar values, survives the wire: quoting, unquoting and
    decoding give the name back, and the wire form is printable ASCII throughout.
  */
  lemma MailboxRoundTrip(name: string)
    ensures Received(Quote(name)) == name
    ensures AllPrintable(Quote(name))
  {
    UnquoteQuote(name);
    EncodeIsPrintable(name, "");
    assert AsciiReplace(Encode(name)) == Encode(name);
    EncodeDecodes(name, "");
  }

  /** Two different names never share a wire form. */
  lemma QuoteInjective(a: string, b: string)
    requires Quote(a) == Quote(b)
    ensures a == b
  {
    MailboxRoundTrip(a);
    MailboxRoundTrip(b);
  }
}
