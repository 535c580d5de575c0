/** The escape-rewriting scan of `catalogJSON` (worker/catalog_capture.go) over the output of Go's JSON
    encoder. Strings are sequences of bytes; decoding follows section 7 of RFC 8259. */
module CatalogJson {
  import opened Hexadecimal
  import opened Values
  import opened Text

  // ----- the scan -----

  const SEPARATOR_2028 := [0xE2 as char, 0x80 as char, 0xA8 as char]
  const SEPARATOR_2029 := [0xE2 as char, 0x80 as char, 0xA9 as char]

  /** The six bytes at the start are one of the two escapes; hexadecimal digits only, so one spelling. */
  predicate IsSeparatorEscape(s: string) {
    |s| >= 6 && s[0] == '\\' && s[1] == 'u' && s[2] == '2' && s[3] == '0' && s[4] == '2' && (s[5] == '8' || s[5] == '9')
  }

  function Scanned(s: string): string {
    if s == "" then ""
    else if s[0] == '\\' && |s| > 1 then
      if IsSeparatorEscape(s) then (if s[5] == '8' then SEPARATOR_2028 else SEPARATOR_2029) + Scanned(s[6..])
      else s[..2] + Scanned(s[2..])
    else [s[0]] + Scanned(s[1..])
  }

  method Scan(data: string) returns (result: string)
    ensures result == Scanned(data)
  {
    result := "";
    var i := 0;
    assert data[0..] == data && "" + Scanned(data) == Scanned(data);
    while i < |data|
      invariant 0 <= i <= |data|
      invariant result + Scanned(data[i..]) == Scanned(data)
    {
      ghost var rest := data[i..];
      EscapeWithin(data, i);
      if data[i] == '\\' && i + 1 < |data| {
        if i + 6 <= |data| && IsSeparatorEscape(data[i..i + 6]) {
          var separator := if data[i + 5] == '8' then SEPARATOR_2028 else SEPARATOR_2029;
          Joined(result, separator, Scanned(data[i + 6..]));
          assert rest[6..] == data[i + 6..];
          result := result + separator;
          i := i + 6;
          continue;
        }
        Joined(result, data[i..i + 2], Scanned(data[i + 2..]));
        assert rest[..2] == data[i..i + 2] && rest[2..] == data[i + 2..];
        result := result + data[i..i + 2];
        i := i + 2;
        continue;
      }
      Joined(result, [data[i]], Scanned(data[i + 1..]));
      assert rest[1..] == data[i + 1..];
      result := result + [data[i]];
      i := i + 1;
    }
    assert data[i..] == "" && result + "" == result;
  }

  lemma EscapeWithin(data: string, i: nat)
    requires i < |data|
    ensures IsSeparatorEscape(data[i..]) <==> i + 6 <= |data| && IsSeparatorEscape(data[i..i + 6])
  {
  }

  lemma Joined(a: string, b: string, c: string)
    ensures a + (b + c) == a + b + c
  {
  }

  // ----- the encoder -----

  /** What one piece of a string is written as: escapes for quotes, backslashes, control characters and
      the two separators, raw bytes otherwise. */
  datatype Piece = Piece(width: nat, text: string)

  function FirstPiece(s: string): (p: Piece)
    requires s != ""
    ensures 0 < p.width <= |s| && p.text != ""
  {
    if s[0] == '"' then Piece(1, "\\\"")
    else if s[0] == '\\' then Piece(1, "\\\\")
    else if s[0] == '\n' then Piece(1, "\\n")
    else if s[0] == '\r' then Piece(1, "\\r")
    else if s[0] == '\t' then Piece(1, "\\t")
    else if s[0] as int == 8 then Piece(1, "\\b")
    else if s[0] as int == 12 then Piece(1, "\\f")
    else if s[0] as int < 32 then Piece(1, "\\u00" + [HexDigit(s[0] as int / 16), HexDigit(s[0] as int)])
    else if HasPrefix(s, SEPARATOR_2028) then Piece(3, "\\u2028")
    else if HasPrefix(s, SEPARATOR_2029) then Piece(3, "\\u2029")
    else Piece(1, [s[0]])
  }

  /** Go's encoder on the body of a string. */
  function Encoded(s: string): string {
    if s == "" then "" else FirstPiece(s).text + Encoded(s[FirstPiece(s).width..])
  }

  /** The application's encoder: the same, but for the two separators, which it writes as they are. */
  function Canonical(s: string): string {
    if s == "" then ""
    else if s[0] as int < 32 || s[0] == '"' || s[0] == '\\' then FirstPiece(s).text + Canonical(s[1..])
    else [s[0]] + Canonical(s[1..])
  }

  // ----- decoding -----

  predicate IsHexDigit(c: char) {
    '0' <= c <= '9' || 'a' <= c <= 'f' || 'A' <= c <= 'F'
  }

  function HexValue(c: char): nat
    requires IsHexDigit(c)
  {
    if '0' <= c <= '9' then c as int - '0' as int
    else if 'a' <= c <= 'f' then c as int - 'a' as int + 10
    else c as int - 'A' as int + 10
  }

  /** UTF-8 of a code point below the surrogates, or of any other code point of the basic plane. */
  function Utf8(n: nat): string
    requires n < 0x10000
  {
    if n < 0x80 then [n as char]
    else if n < 0x800 then [(0xC0 + n / 64) as char, (0x80 + n % 64) as char]
    else [(0xE0 + n / 4096) as char, (0x80 + n / 64 % 64) as char, (0x80 + n % 64) as char]
  }

  function Follow(head: string, rest: Option<string>): Option<string> {
    if rest.None? then None else Some(head + rest.value)
  }

  /** The string that the body of a literal stands for, if it is one; pairs of surrogate escapes are
      left unpaired, as the encoder writes none. */
  function Decoded(s: string): Option<string>
    decreases |s|
  {
    if s == "" then Some("")
    else if s[0] == '"' || s[0] as int < 32 then None
    else if s[0] != '\\' then Follow([s[0]], Decoded(s[1..]))
    else if |s| < 2 then None
    else if s[1] == '"' || s[1] == '\\' || s[1] == '/' then Follow([s[1]], Decoded(s[2..]))
    else if s[1] == 'n' then Follow("\n", Decoded(s[2..]))
    else if s[1] == 'r' then Follow("\r", Decoded(s[2..]))
    else if s[1] == 't' then Follow("\t", Decoded(s[2..]))
    else if s[1] == 'b' then Follow([8 as char], Decoded(s[2..]))
    else if s[1] == 'f' then Follow([12 as char], Decoded(s[2..]))
    else if s[1] == 'u' && |s| >= 6 && IsHexDigit(s[2]) && IsHexDigit(s[3]) && IsHexDigit(s[4]) && IsHexDigit(s[5]) then
      var n := HexValue(s[2]) * 4096 + HexValue(s[3]) * 256 + HexValue(s[4]) * 16 + HexValue(s[5]);
      Follow(Utf8(n), Decoded(s[6..]))
    else None
  }

  // ----- what the scan does to any literal -----

  lemma PlainDecoded(c: char, rest: string)
    requires c != '"' && c != '\\' && c as int >= 32
    ensures Decoded([c] + rest) == Follow([c], Decoded(rest))
  {
    assert ([c] + rest)[1..] == rest;
  }

  lemma DecodedPlain(head: string, rest: string)
    requires forall i :: 0 <= i < |head| ==> head[i] != '"' && head[i] != '\\' && head[i] as int >= 32
    requires |head| == 3
    ensures Decoded(head + rest) == Follow(head, Decoded(rest))
  {
    var a, b, c := [head[0]], [head[1]], [head[2]];
    PlainDecoded(head[2], rest);
    PlainDecoded(head[1], c + rest);
    PlainDecoded(head[0], b + (c + rest));
    assert head + rest == a + (b + (c + rest));
    FollowThree(head, Decoded(rest));
  }

  lemma FollowThree(head: string, rest: Option<string>)
    requires |head| == 3
    ensures Follow([head[0]], Follow([head[1]], Follow([head[2]], rest))) == Follow(head, rest)
  {
    if rest.Some? {
      assert [head[0]] + ([head[1]] + ([head[2]] + rest.value)) == head + rest.value;
    }
  }

  lemma SeparatorValues()
    ensures Utf8(0x2028) == SEPARATOR_2028 && Utf8(0x2029) == SEPARATOR_2029
  {
  }

  lemma SeparatorDecoded(s: string)
    requires IsSeparatorEscape(s)
    ensures Decoded(s) == Follow(if s[5] == '8' then SEPARATOR_2028 else SEPARATOR_2029, Decoded(s[6..]))
  {
    SeparatorValues();
    assert HexValue('2') == 2 && HexValue('0') == 0 && HexValue('8') == 8 && HexValue('9') == 9;
  }

  /** The scan does not change what a literal stands for, whatever escapes it holds. */
  lemma {:induction false} ScanPreserves(s: string)
    requires Decoded(s).Some?
    ensures Decoded(Scanned(s)) == Decoded(s)
    decreases |s|
  {
    if s == "" {
    } else if s[0] != '\\' {
      ScanPreserves(s[1..]);
      assert Scanned(s)[1..] == Scanned(s[1..]);
    } else if IsSeparatorEscape(s) {
      SeparatorDecoded(s);
      ScanPreserves(s[6..]);
      DecodedPlain(if s[5] == '8' then SEPARATOR_2028 else SEPARATOR_2029, Scanned(s[6..]));
    } else if s[1] == 'u' {
      UnicodeEscapePreserved(s);
    } else {
      ScanPreserves(s[2..]);
      assert Scanned(s)[2..] == Scanned(s[2..]);
    }
  }

  lemma UnicodeEscapePreserved(s: string)
    requires Decoded(s).Some? && |s| >= 2 && s[0] == '\\' && s[1] == 'u' && !IsSeparatorEscape(s)
    ensures Decoded(Scanned(s)) == Decoded(s)
    decreases |s|, 0
  {
    EscapeWhole(s);
    var head, rest := s[..6], s[6..];
    assert s == head + rest && !IsSeparatorEscape(head);
    UnicodeDecoded(head, rest);
    ScanPreserves(rest);
    UnicodeScanned(head, rest);
    UnicodeDecoded(head, Scanned(rest));
  }

  predicate IsUnicodeEscape(head: string) {
    && |head| == 6 && head[0] == '\\' && head[1] == 'u'
    && IsHexDigit(head[2]) && IsHexDigit(head[3]) && IsHexDigit(head[4]) && IsHexDigit(head[5])
  }

  lemma EscapeWhole(s: string)
    requires Decoded(s).Some? && |s| >= 2 && s[0] == '\\' && s[1] == 'u'
    ensures |s| >= 6 && IsUnicodeEscape(s[..6])
  {
  }

  lemma UnicodeDecoded(head: string, rest: string)
    requires IsUnicodeEscape(head)
    ensures var n := HexValue(head[2]) * 4096 + HexValue(head[3]) * 256 + HexValue(head[4]) * 16 + HexValue(head[5]);
            Decoded(head + rest) == Follow(Utf8(n), Decoded(rest))
  {
    assert (head + rest)[6..] == rest;
  }

  lemma UnicodeScanned(head: string, rest: string)
    requires IsUnicodeEscape(head) && !IsSeparatorEscape(head)
    ensures Scanned(head + rest) == head + Scanned(rest)
  {
    var s, four := head + rest, head[2..];
    assert s[2..] == four + rest && s[..2] == head[..2] && head == head[..2] + four;
    FourPlain(four + rest);
    assert (four + rest)[..4] == four && (four + rest)[4..] == rest;
    assert head[..2] + (four + Scanned(rest)) == head + Scanned(rest);
  }

  lemma FourPlain(s: string)
    requires |s| >= 4 && s[0] != '\\' && s[1] != '\\' && s[2] != '\\' && s[3] != '\\'
    ensures Scanned(s) == s[..4] + Scanned(s[4..])
  {
    assert s[1..][1..] == s[2..] && s[2..][1..] == s[3..] && s[3..][1..] == s[4..];
    assert Scanned(s[3..]) == [s[3]] + Scanned(s[4..]);
    assert Scanned(s[2..]) == [s[2]] + Scanned(s[3..]);
    assert Scanned(s[1..]) == [s[1]] + Scanned(s[2..]);
  }

  // ----- no escape is left -----

  /** One of the two escapes stands in the text, not counting a backslash that is itself escaped. */
  predicate HasSeparatorEscape(s: string) {
    if s == "" then false
    else if s[0] == '\\' && |s| > 1 then IsSeparatorEscape(s) || HasSeparatorEscape(s[2..])
    else HasSeparatorEscape(s[1..])
  }

  /** Plain text comes only from plain text. */
  lemma ScannedHead(s: string)
    requires Scanned(s) != "" && Scanned(s)[0] as int < 128 && Scanned(s)[0] != '\\'
    ensures s != "" && s[0] == Scanned(s)[0] && Scanned(s)[1..] == Scanned(s[1..])
  {
  }

  predicate FourPlainBytes(s: string) {
    |s| >= 4 && forall i :: 0 <= i < 4 ==> s[i] as int < 128 && s[i] != '\\'
  }

  lemma PlainFromPlain(s: string)
    requires FourPlainBytes(Scanned(s))
    ensures |s| >= 4 && s[0] == Scanned(s)[0] && s[1] == Scanned(s)[1] && s[2] == Scanned(s)[2] && s[3] == Scanned(s)[3]
  {
    ScannedHead(s);
    ScannedHead(s[1..]);
    ScannedHead(s[1..][1..]);
    ScannedHead(s[1..][1..][1..]);
  }

  predicate IsSeparatorDigits(r: string) {
    |r| >= 4 && r[0] == '2' && r[1] == '0' && r[2] == '2' && (r[3] == '8' || r[3] == '9')
  }

  lemma EscapeParts(p: string, r: string)
    requires |p| == 2
    ensures IsSeparatorEscape(p + r) <==> p == "\\u" && IsSeparatorDigits(r)
  {
    var s := p + r;
    assert s[0] == p[0] && s[1] == p[1] && forall i :: 2 <= i < |s| ==> s[i] == r[i - 2];
  }

  lemma DigitsFromDigits(r: string)
    ensures IsSeparatorDigits(Scanned(r)) ==> IsSeparatorDigits(r)
  {
    if FourPlainBytes(Scanned(r)) {
      PlainFromPlain(r);
    }
  }

  lemma NoNewEscape(p: string, r: string)
    requires |p| == 2 && !IsSeparatorEscape(p + r)
    ensures !IsSeparatorEscape(p + Scanned(r))
  {
    EscapeParts(p, r);
    EscapeParts(p, Scanned(r));
    DigitsFromDigits(r);
  }

  lemma {:induction false} NoneLeft(s: string)
    ensures !HasSeparatorEscape(Scanned(s))
    decreases |s|
  {
    var t := Scanned(s);
    if s == "" {
    } else if s[0] != '\\' || |s| == 1 {
      NoneLeft(s[1..]);
      assert t[1..] == Scanned(s[1..]);
    } else if IsSeparatorEscape(s) {
      NoneLeft(s[6..]);
      assert t[1..][1..][1..] == Scanned(s[6..]);
      assert !HasSeparatorEscape(t[1..][1..]) && !HasSeparatorEscape(t[1..]);
    } else {
      NoneLeft(s[2..]);
      assert s == s[..2] + s[2..] && t == s[..2] + Scanned(s[2..]);
      NoNewEscape(s[..2], s[2..]);
      assert t[2..] == Scanned(s[2..]);
    }
  }

  // ----- over the encoder's output -----

  lemma ScannedPiece(p: string, rest: string)
    requires |p| == 2 && p[0] == '\\' && p[1] != 'u'
    ensures Scanned(p + rest) == p + Scanned(rest)
  {
    assert (p + rest)[2..] == rest && (p + rest)[..2] == p;
  }

  lemma ScannedControl(a: char, b: char, rest: string)
    requires a != '\\' && b != '\\'
    ensures Scanned("\\u00" + [a, b] + rest) == "\\u00" + [a, b] + Scanned(rest)
  {
    var s := "\\u00" + [a, b] + rest;
    assert s[..2] == "\\u" && s[2..] == "00" + [a, b] + rest;
    FourPlain(s[2..]);
    assert s[2..][4..] == rest && s[2..][..4] == "00" + [a, b];
    assert "\\u" + ("00" + [a, b] + Scanned(rest)) == "\\u00" + [a, b] + Scanned(rest);
  }

  lemma ScannedSeparator(p: string, rest: string)
    requires p == "\\u2028" || p == "\\u2029"
    ensures Scanned(p + rest) == (if p == "\\u2028" then SEPARATOR_2028 else SEPARATOR_2029) + Scanned(rest)
  {
    assert (p + rest)[6..] == rest && (p + rest)[5] == p[5];
  }

  lemma CanonicalPlain(c: char, rest: string)
    requires c as int >= 128
    ensures Canonical([c] + rest) == [c] + Canonical(rest)
  {
    assert ([c] + rest)[1..] == rest;
  }

  lemma SeparatorBytes(s: string)
    requires HasPrefix(s, SEPARATOR_2028) || HasPrefix(s, SEPARATOR_2029)
    ensures |s| >= 3 && s[0] as int >= 128 && s[1] as int >= 128 && s[2] as int >= 128
  {
  }

  lemma CanonicalSeparator(s: string)
    requires |s| >= 3 && s[0] as int >= 128 && s[1] as int >= 128 && s[2] as int >= 128
    ensures Canonical(s) == s[..3] + Canonical(s[3..])
  {
    FirstThree(s);
    CanonicalThree(s[0], s[1], s[2], s[3..]);
  }

  lemma FirstThree(s: string)
    requires |s| >= 3
    ensures s[..3] == [s[0], s[1], s[2]] && [s[0], s[1], s[2]] + s[3..] == s
  {
  }

  lemma CanonicalThree(a: char, b: char, c: char, rest: string)
    requires a as int >= 128 && b as int >= 128 && c as int >= 128
    ensures Canonical([a, b, c] + rest) == [a, b, c] + Canonical(rest)
  {
    CanonicalPlain(c, rest);
    CanonicalPlain(b, [c] + rest);
    CanonicalPlain(a, [b] + ([c] + rest));
    ThreeBytes(a, b, c, rest);
    ThreeBytes(a, b, c, Canonical(rest));
  }

  lemma ThreeBytes(a: char, b: char, c: char, rest: string)
    ensures [a] + ([b] + ([c] + rest)) == [a, b, c] + rest
  {
  }

  /** Go's output, scanned, is the application's canonical output, whatever follows it. */
  lemma {:induction false} EncodedScanned(s: string, more: string)
    ensures Scanned(Encoded(s) + more) == Canonical(s) + Scanned(more)
    decreases |s|
  {
    if s == "" {
      assert Encoded(s) + more == more && Canonical(s) + Scanned(more) == Scanned(more);
    } else {
      var p := FirstPiece(s);
      var rest := Encoded(s[p.width..]);
      EncodedScanned(s[p.width..], more);
      PieceScanned(s, rest + more);
      Joined(p.text, rest, more);
      CanonicalPiece(s);
      Joined(CanonicalText(s), Canonical(s[p.width..]), Scanned(more));
    }
  }

  /** What the first piece becomes. */
  function CanonicalText(s: string): string
    requires s != ""
  {
    if FirstPiece(s).width == 3 then s[..3] else FirstPiece(s).text
  }

  lemma CanonicalPiece(s: string)
    requires s != ""
    ensures Canonical(s) == CanonicalText(s) + Canonical(s[FirstPiece(s).width..])
  {
    if FirstPiece(s).width == 3 {
      SeparatorBytes(s);
      CanonicalSeparator(s);
    }
  }

  lemma PieceScanned(s: string, rest: string)
    requires s != ""
    ensures Scanned(FirstPiece(s).text + rest) == CanonicalText(s) + Scanned(rest)
  {
    var p := FirstPiece(s);
    if p.width == 3 {
      ScannedSeparator(p.text, rest);
    } else if |p.text| == 6 {
      ScannedControl(HexDigit(s[0] as int / 16), HexDigit(s[0] as int), rest);
    } else if |p.text| == 2 {
      ScannedPiece(p.text, rest);
    } else {
      assert ([s[0]] + rest)[1..] == rest;
    }
  }

  // ----- whole documents -----

  /** A document: string literals, and the text between them, which has no backslash. */
  datatype Part = Plain(text: string) | Literal(value: string)

  function DocumentText(parts: seq<Part>, encode: string -> string): string {
    if parts == [] then ""
    else
      (match parts[0]
       case Plain(text) => text
       case Literal(value) => "\"" + encode(value) + "\"")
      + DocumentText(parts[1..], encode)
  }

  lemma {:induction false} PlainScanned(text: string, more: string)
    requires '\\' !in text
    ensures Scanned(text + more) == text + Scanned(more)
  {
    if text == "" {
      assert text + more == more;
    } else {
      assert (text + more)[1..] == text[1..] + more && text[0] in text;
      PlainScanned(text[1..], more);
    }
  }

  /** The scan of a whole document rewrites each of its literals and nothing between them. */
  lemma {:induction false} DocumentScanned(parts: seq<Part>)
    requires forall p :: p in parts && p.Plain? ==> '\\' !in p.text
    ensures Scanned(DocumentText(parts, Encoded)) == DocumentText(parts, Canonical)
  {
    if parts != [] {
      var rest := DocumentText(parts[1..], Encoded);
      DocumentScanned(parts[1..]);
      match parts[0]
      case Plain(text) => PlainScanned(text, rest);
      case Literal(value) => LiteralScanned(value, rest);
    }
  }

  lemma LiteralScanned(value: string, rest: string)
    ensures Scanned("\"" + Encoded(value) + "\"" + rest) == "\"" + Canonical(value) + "\"" + Scanned(rest)
  {
    QuoteScanned(rest);
    EncodedScanned(value, "\"" + rest);
    QuoteScanned(Encoded(value) + ("\"" + rest));
    Quoted("\"", Encoded(value), rest);
    Quoted("\"", Canonical(value), Scanned(rest));
  }

  lemma QuoteScanned(rest: string)
    ensures Scanned("\"" + rest) == "\"" + Scanned(rest)
  {
    assert ("\"" + rest)[1..] == rest;
  }

  lemma Quoted(quote: string, text: string, rest: string)
    ensures quote + text + quote + rest == quote + (text + (quote + rest))
  {
  }

  lemma ControlDecoded(c: char, rest: string)
    requires c as int < 32
    ensures Decoded("\\u00" + [HexDigit(c as int / 16), HexDigit(c as int)] + rest) == Follow([c], Decoded(rest))
  {
    var n := c as int;
    var s := "\\u00" + [HexDigit(n / 16), HexDigit(n)] + rest;
    assert s[6..] == rest && HexValue(s[4]) == n / 16 && HexValue(s[5]) == n % 16 && HexValue(s[2]) == 0
          && HexValue(s[3]) == 0;
  }

  lemma PieceDecoded(s: string, rest: string)
    requires s != ""
    ensures Decoded(FirstPiece(s).text + rest) == Follow(s[..FirstPiece(s).width], Decoded(rest))
  {
    var p := FirstPiece(s);
    var t := p.text + rest;
    if p.width == 3 {
      SeparatorDecoded(t);
      assert t[6..] == rest && s[..3] == if t[5] == '8' then SEPARATOR_2028 else SEPARATOR_2029;
    } else {
      assert s[..1] == [s[0]];
      if |p.text| == 6 {
        ControlDecoded(s[0], rest);
      } else if |p.text| == 2 {
        assert t[2..] == rest;
      } else {
        PlainDecoded(s[0], rest);
      }
    }
  }

  /** Go's output stands for the string it was made from. */
  lemma {:induction false} EncodedDecodes(s: string)
    ensures Decoded(Encoded(s)) == Some(s)
    decreases |s|
  {
    if s != "" {
      var width := FirstPiece(s).width;
      EncodedDecodes(s[width..]);
      PieceDecoded(s, Encoded(s[width..]));
      assert s == s[..width] + s[width..];
    }
  }

  /** So each literal of the scanned output stands for the same string, with no escaped separator left. */
  lemma ScannedEncodingDecodes(s: string)
    ensures Scanned(Encoded(s)) == Canonical(s)
    ensures Decoded(Canonical(s)) == Some(s) && !HasSeparatorEscape(Canonical(s))
  {
    EncodedScanned(s, "");
    assert Encoded(s) + "" == Encoded(s) && Canonical(s) + "" == Canonical(s);
    EncodedDecodes(s);
    ScanPreserves(Encoded(s));
    NoneLeft(Encoded(s));
  }
}
