/** The JSON texts the extension writes and reads: string literals as
    `JSON.stringify` quotes them (section 7 of RFC 8259), the meta document
    `[{"url":…},…]`, the file metadata sent on create, and the body of the
    token-refresh request. Each encoder has a decoder, and each pair is proved
    to round-trip. Characters are Unicode scalar values, so the lone surrogates
    a JavaScript string may hold do not arise. */
module Json {
  import opened Base

  /** One bookmark of a folder: the object `{url: string}`. */
  datatype LinkEntry = LinkEntry(url: string)

  /** Metadata part of the multipart create request (`parents` holds one folder). */
  datatype Metadata = Metadata(name: string, mimeType: string, parent: string)

  /** No control character: in particular no CR and no LF. */
  predicate Printable(s: string) {
    forall i :: 0 <= i < |s| ==> ' ' <= s[i]
  }

  lemma PrintableAppend(a: string, b: string)
    requires Printable(a) && Printable(b)
    ensures Printable(a + b)
  {
  }

  // ---------------------------------------------------------------------------
  // Hexadecimal digits of `\uXXXX` escapes

  /** The lower-case hexadecimal digit `JSON.stringify` writes for `n`. */
  function HexDigit(n: nat): (c: char)
    requires n < 16
    ensures HexValue(c) == Some(n)
  {
    if n < 10 then ('0' as int + n) as char else ('a' as int + (n - 10)) as char
  }

  /** The value of a hexadecimal digit of either case. */
  function HexValue(c: char): (r: Option<nat>)
    ensures r.Some? ==> r.value < 16
  {
    if '0' <= c <= '9' then Some(c as int - '0' as int)
    else if 'a' <= c <= 'f' then Some(c as int - 'a' as int + 10)
    else if 'A' <= c <= 'F' then Some(c as int - 'A' as int + 10)
    else None
  }

  /** The value of the four hexadecimal digits at the start of `s`. */
  function Hex4(s: string): (r: Option<nat>)
    ensures r.Some? ==> |s| >= 4 && r.value < 0x10000
  {
    if |s| < 4 then None
    else
      var a :- HexValue(s[0]);
      var b :- HexValue(s[1]);
      var c :- HexValue(s[2]);
      var d :- HexValue(s[3]);
      Some(((a * 16 + b) * 16 + c) * 16 + d)
  }

  // ---------------------------------------------------------------------------
  // String literals

  /** The text `JSON.stringify` writes for character `c` inside a string
      literal: the two-character escapes for quote, backslash, backspace, tab,
      line feed, form feed and carriage return, `\u00XX` for the other control
      characters, and the character itself otherwise. */
  function EscapeChar(c: char): (r: string)
    ensures |r| > 0 && r[0] != '"' && Printable(r)
  {
    if c == '"' then "\\\""
    else if c == '\\' then "\\\\"
    else if c == '\U{8}' then "\\b"
    else if c == '\t' then "\\t"
    else if c == '\n' then "\\n"
    else if c == '\U{C}' then "\\f"
    else if c == '\r' then "\\r"
    else if c < ' ' then "\\u00" + [HexDigit(c as int / 16), HexDigit(c as int % 16)]
    else [c]
  }

  /** The body of the string literal for `s`; it never holds a control character. */
  function Escape(s: string): (r: string)
    ensures Printable(r)
  {
    if |s| == 0 then [] else EscapeChar(s[0]) + Escape(s[1..])
  }

  /** `JSON.stringify` of a string. */
  function EncodeString(s: string): string {
    "\"" + Escape(s) + "\""
  }

  /** Decodes one escape sequence; `s` is the text after the backslash.
      A surrogate pair written as two `\u` escapes decodes to one character;
      a lone surrogate is refused. */
  function Unescape(s: string): (r: Option<Parsed<char>>)
    ensures r.Some? ==> |r.value.rest| < |s|
  {
    if |s| == 0 then None
    else if s[0] == '"' || s[0] == '\\' || s[0] == '/' then Some(Parsed(s[0], s[1..]))
    else if s[0] == 'b' then Some(Parsed('\U{8}', s[1..]))
    else if s[0] == 't' then Some(Parsed('\t', s[1..]))
    else if s[0] == 'n' then Some(Parsed('\n', s[1..]))
    else if s[0] == 'f' then Some(Parsed('\U{C}', s[1..]))
    else if s[0] == 'r' then Some(Parsed('\r', s[1..]))
    else if s[0] == 'u' then
      var v :- Hex4(s[1..]);
      if v < 0xD800 || 0xE000 <= v then Some(Parsed(v as char, s[5..]))
      else if v < 0xDC00 && |s| >= 7 && s[5] == '\\' && s[6] == 'u' then
        var w :- Hex4(s[7..]);
        if 0xDC00 <= w < 0xE000 then
          Some(Parsed((0x10000 + (v - 0xD800) * 0x400 + (w - 0xDC00)) as char, s[11..]))
        else None
      else None
    else None
  }

  /** Decodes the first character of a string literal's body. */
  function DecodeHead(s: string): (r: Option<Parsed<char>>)
    requires |s| > 0
    ensures r.Some? ==> |r.value.rest| < |s|
  {
    if s[0] == '\\' then Unescape(s[1..])
    else if s[0] < ' ' || s[0] == '"' then None
    else Some(Parsed(s[0], s[1..]))
  }

  /** Decodes a string literal's body up to and including its closing quote. */
  function DecodeChars(s: string): (r: Option<Parsed<string>>)
    ensures r.Some? ==> |r.value.rest| < |s|
    decreases |s|
  {
    if |s| == 0 then None
    else if s[0] == '"' then Some(Parsed([], s[1..]))
    else
      var h :- DecodeHead(s);
      var t :- DecodeChars(h.rest);
      Some(Parsed([h.value] + t.value, t.rest))
  }

  /** Parses a string literal at the start of `s`. */
  function ParseString(s: string): (r: Option<Parsed<string>>)
    ensures r.Some? ==> |r.value.rest| < |s|
  {
    if |s| > 0 && s[0] == '"' then DecodeChars(s[1..]) else None
  }

  /** Consumes the literal text `lit` at the start of `s`. */
  function Lit(lit: string, s: string): (r: Option<string>)
    ensures r.Some? ==> s == lit + r.value
  {
    if |lit| <= |s| && s[..|lit|] == lit then Some(s[|lit|..]) else None
  }

  lemma LitPrefix(lit: string, tail: string)
    ensures Lit(lit, lit + tail) == Some(tail)
  {
    assert (lit + tail)[..|lit|] == lit;
    assert (lit + tail)[|lit|..] == tail;
  }

  lemma HeadOfEscape(c: char, tail: string)
    ensures DecodeHead(EscapeChar(c) + tail) == Some(Parsed(c, tail))
  {
    var e := EscapeChar(c);
    var s := e + tail;
    if e == [c] {
      assert s[1..] == tail;
    } else if c < ' ' && c != '\U{8}' && c != '\t' && c != '\n' && c != '\U{C}' && c != '\r' {
      var hi, lo := c as int / 16, c as int % 16;
      assert e == "\\u00" + [HexDigit(hi), HexDigit(lo)];
      assert s[1..][1..] == ['0', '0', HexDigit(hi), HexDigit(lo)] + tail;
      assert s[1..][5..] == tail;
      assert Hex4(s[1..][1..]) == Some(c as int);
    } else {
      assert |e| == 2 && e[0] == '\\';
      assert s[1..] == [e[1]] + tail;
      assert s[1..][1..] == tail;
    }
  }

  lemma DecodeCharsStep(x: string, h: Parsed<char>, t: Parsed<string>)
    requires |x| > 0 && x[0] != '"'
    requires DecodeHead(x) == Some(h) && DecodeChars(h.rest) == Some(t)
    ensures DecodeChars(x) == Some(Parsed([h.value] + t.value, t.rest))
  {
  }

  /** One escaped character in front of a decodable text decodes first. */
  lemma DecodeEscapedHead(c: char, rest: string, t: Parsed<string>)
    requires DecodeChars(rest) == Some(t)
    ensures DecodeChars(EscapeChar(c) + rest) == Some(Parsed([c] + t.value, t.rest))
  {
    var e := EscapeChar(c);
    var x := e + rest;
    HeadOfEscape(c, rest);
    assert x[0] == e[0];
    DecodeCharsStep(x, Parsed(c, rest), t);
  }

  lemma {:induction false} DecodeEscape(s: string, tail: string)
    ensures DecodeChars(Escape(s) + "\"" + tail) == Some(Parsed(s, tail))
    decreases |s|
  {
    if |s| == 0 {
      assert Escape(s) + "\"" + tail == "\"" + tail;
      assert ("\"" + tail)[1..] == tail;
    } else {
      var q := "\"" + tail;
      var rest := Escape(s[1..]) + "\"" + tail;
      assert Escape(s) == EscapeChar(s[0]) + Escape(s[1..]);
      Assoc(Escape(s), "\"", tail);
      Assoc(Escape(s[1..]), "\"", tail);
      Assoc(EscapeChar(s[0]), Escape(s[1..]), q);
      DecodeEscape(s[1..], tail);
      DecodeEscapedHead(s[0], rest, Parsed(s[1..], tail));
      assert [s[0]] + s[1..] == s;
    }
  }

  /** Decoding a quoted string gives back the string and exactly the text after it. */
  lemma ParseEncodedString(s: string, tail: string)
    ensures ParseString(EncodeString(s) + tail) == Some(Parsed(s, tail))
  {
    var t := EncodeString(s) + tail;
    assert t[1..] == Escape(s) + "\"" + tail;
    DecodeEscape(s, tail);
  }

  lemma EncodeStringPrintable(s: string)
    ensures Printable(EncodeString(s)) && EncodeString(s)[0] == '"'
  {
  }

  // ---------------------------------------------------------------------------
  // The meta document: an array of `{"url": …}` objects

  function EncodeLink(e: LinkEntry): string {
    "{\"url\":" + (EncodeString(e.url) + "}")
  }

  /** The comma-separated members of the array. */
  function EncodeItems(links: seq<LinkEntry>): string
    decreases |links|
  {
    if |links| == 0 then ""
    else if |links| == 1 then EncodeLink(links[0])
    else EncodeLink(links[0]) + ("," + EncodeItems(links[1..]))
  }

  /** `JSON.stringify(links)`: one line of printable text, an array, and
      `[]` exactly for the empty list. */
  function EncodeLinks(links: seq<LinkEntry>): (r: string)
    ensures Printable(r) && |r| >= 2 && r[0] == '[' && r[|r| - 1] == ']'
    ensures r == "[]" <==> |links| == 0
  {
    EncodeItemsPrintable(links);
    assert |links| > 0 ==> |EncodeItems(links)| > 0;
    "[" + EncodeItems(links) + "]"
  }

  function ParseLink(s: string): (r: Option<Parsed<LinkEntry>>)
    ensures r.Some? ==> |r.value.rest| < |s|
  {
    var t :- Lit("{\"url\":", s);
    var u :- ParseString(t);
    var w :- Lit("}", u.rest);
    Some(Parsed(LinkEntry(u.value), w))
  }

  /** Parses array members up to and including the closing bracket. */
  function ParseItems(s: string): (r: Option<Parsed<seq<LinkEntry>>>)
    ensures r.Some? ==> |r.value.rest| < |s| && |r.value.value| > 0
    decreases |s|
  {
    var p :- ParseLink(s);
    if |p.rest| > 0 && p.rest[0] == ',' then
      var q :- ParseItems(p.rest[1..]);
      Some(Parsed([p.value] + q.value, q.rest))
    else if |p.rest| > 0 && p.rest[0] == ']' then
      Some(Parsed([p.value], p.rest[1..]))
    else None
  }

  /** What `response.json()` yields for a stored meta document, when that
      document is a link list in the compact form `JSON.stringify` writes. */
  function DecodeLinks(s: string): (r: Option<seq<LinkEntry>>)
    // only an array decodes, and the empty list only from `[]`
    ensures r.Some? ==> |s| > 0 && s[0] == '['
    ensures r == Some([]) <==> s == "[]"
  {
    if s == "[]" then Some([])
    else
      var t :- Lit("[", s);
      var p :- ParseItems(t);
      if p.rest == "" then Some(p.value) else None
  }

  lemma ParseEncodedLink(e: LinkEntry, tail: string)
    ensures ParseLink(EncodeLink(e) + tail) == Some(Parsed(e, tail))
  {
    var open := "{\"url\":";
    var enc := EncodeString(e.url);
    Assoc(open, enc + "}", tail);
    Assoc(enc, "}", tail);
    LitPrefix(open, enc + ("}" + tail));
    ParseEncodedString(e.url, "}" + tail);
    LitPrefix("}", tail);
  }

  lemma Assoc(a: string, b: string, c: string)
    ensures (a + b) + c == a + (b + c)
  {
  }

  lemma ParseItemsMore(x: string, p: Parsed<LinkEntry>, q: Parsed<seq<LinkEntry>>)
    requires ParseLink(x) == Some(p) && |p.rest| > 0 && p.rest[0] == ','
    requires ParseItems(p.rest[1..]) == Some(q)
    ensures ParseItems(x) == Some(Parsed([p.value] + q.value, q.rest))
  {
  }

  lemma ParseItemsLast(x: string, p: Parsed<LinkEntry>)
    requires ParseLink(x) == Some(p) && |p.rest| > 0 && p.rest[0] == ']'
    ensures ParseItems(x) == Some(Parsed([p.value], p.rest[1..]))
  {
  }

  lemma {:induction false} ParseEncodedItems(links: seq<LinkEntry>, tail: string)
    requires |links| > 0
    ensures ParseItems(EncodeItems(links) + ("]" + tail)) == Some(Parsed(links, tail))
    decreases |links|
  {
    var s := EncodeItems(links) + ("]" + tail);
    if |links| == 1 {
      ParseEncodedLink(links[0], "]" + tail);
      assert ("]" + tail)[1..] == tail;
      ParseItemsLast(s, Parsed(links[0], "]" + tail));
      assert [links[0]] == links;
    } else {
      var more := EncodeItems(links[1..]) + ("]" + tail);
      Assoc(EncodeLink(links[0]), "," + EncodeItems(links[1..]), "]" + tail);
      Assoc(",", EncodeItems(links[1..]), "]" + tail);
      ParseEncodedLink(links[0], "," + more);
      assert ("," + more)[1..] == more;
      ParseEncodedItems(links[1..], tail);
      ParseItemsMore(s, Parsed(links[0], "," + more), Parsed(links[1..], tail));
      assert [links[0]] + links[1..] == links;
    }
  }

  /** The meta document written for a link list reads back as that list. */
  lemma DecodeEncodedLinks(links: seq<LinkEntry>)
    ensures DecodeLinks(EncodeLinks(links)) == Some(links)
  {
    if |links| > 0 {
      var s := EncodeLinks(links);
      assert s == "[" + (EncodeItems(links) + ("]" + ""));
      LitPrefix("[", EncodeItems(links) + ("]" + ""));
      ParseEncodedItems(links, "");
      assert s != "[]" by {
        assert |EncodeItems(links)| > 0;
      }
    }
  }

  lemma EncodeLinkPrintable(e: LinkEntry)
    ensures Printable(EncodeLink(e))
  {
    EncodeStringPrintable(e.url);
    PrintableAppend(EncodeString(e.url), "}");
    PrintableAppend("{\"url\":", EncodeString(e.url) + "}");
  }

  lemma {:induction false} EncodeItemsPrintable(links: seq<LinkEntry>)
    ensures Printable(EncodeItems(links))
    decreases |links|
  {
    if |links| > 0 {
      EncodeLinkPrintable(links[0]);
      if |links| > 1 {
        EncodeItemsPrintable(links[1..]);
        PrintableAppend(",", EncodeItems(links[1..]));
        PrintableAppend(EncodeLink(links[0]), "," + EncodeItems(links[1..]));
      }
    }
  }

  // ---------------------------------------------------------------------------
  // File metadata of the create request

  /** `JSON.stringify({name, mimeType, parents: [parent]})`: one line of
      printable text holding an object. */
  function EncodeMetadata(m: Metadata): (r: string)
    ensures Printable(r) && |r| > 0 && r[0] == '{'
  {
    var n, t, p := EncodeString(m.name), EncodeString(m.mimeType), EncodeString(m.parent);
    EncodeStringPrintable(m.name);
    EncodeStringPrintable(m.mimeType);
    EncodeStringPrintable(m.parent);
    MetadataPrintable(n, t, p);
    "{\"name\":" + (n + (",\"mimeType\":" + (t + (",\"parents\":[" + (p + "]}")))))
  }

  lemma MetadataPrintable(n: string, t: string, p: string)
    requires Printable(n) && Printable(t) && Printable(p)
    ensures Printable("{\"name\":" + (n + (",\"mimeType\":" + (t + (",\"parents\":[" + (p + "]}"))))))
  {
    PrintableAppend(p, "]}");
    PrintableAppend(",\"parents\":[", p + "]}");
    PrintableAppend(t, ",\"parents\":[" + (p + "]}"));
    PrintableAppend(",\"mimeType\":", t + (",\"parents\":[" + (p + "]}")));
    PrintableAppend(n, ",\"mimeType\":" + (t + (",\"parents\":[" + (p + "]}"))));
    PrintableAppend("{\"name\":", n + (",\"mimeType\":" + (t + (",\"parents\":[" + (p + "]}")))));
  }

  function DecodeMetadata(s: string): Option<Metadata> {
    var a :- Lit("{\"name\":", s);
    var name :- ParseString(a);
    var b :- Lit(",\"mimeType\":", name.rest);
    var mime :- ParseString(b);
    var c :- Lit(",\"parents\":[", mime.rest);
    var parent :- ParseString(c);
    var d :- Lit("]}", parent.rest);
    if d == "" then Some(Metadata(name.value, mime.value, parent.value)) else None
  }

  lemma DecodeMetadataSteps(s: string, a: string, name: Parsed<string>, b: string,
                             mime: Parsed<string>, c: string, parent: Parsed<string>)
    requires Lit("{\"name\":", s) == Some(a) && ParseString(a) == Some(name)
    requires Lit(",\"mimeType\":", name.rest) == Some(b) && ParseString(b) == Some(mime)
    requires Lit(",\"parents\":[", mime.rest) == Some(c) && ParseString(c) == Some(parent)
    requires Lit("]}", parent.rest) == Some("")
    ensures DecodeMetadata(s) == Some(Metadata(name.value, mime.value, parent.value))
  {
  }

  lemma DecodeEncodedMetadata(m: Metadata)
    ensures DecodeMetadata(EncodeMetadata(m)) == Some(m)
  {
    var k1, k2, k3, k4 := "{\"name\":", ",\"mimeType\":", ",\"parents\":[", "]}";
    var n, t, p := EncodeString(m.name), EncodeString(m.mimeType), EncodeString(m.parent);
    var r3 := k4;
    var r2 := k3 + (p + r3);
    var r1 := k2 + (t + r2);
    var s := EncodeMetadata(m);
    LitPrefix(k1, n + r1);
    ParseEncodedString(m.name, r1);
    LitPrefix(k2, t + r2);
    ParseEncodedString(m.mimeType, r2);
    LitPrefix(k3, p + r3);
    ParseEncodedString(m.parent, r3);
    LitPrefix(k4, "");
    assert k4 + "" == k4;
    DecodeMetadataSteps(s, n + r1, Parsed(m.name, r1), t + r2, Parsed(m.mimeType, r2),
                        p + r3, Parsed(m.parent, r3));
  }

  // ---------------------------------------------------------------------------
  // Body of the token-refresh request

  /** `JSON.stringify({refresh_token: t})`; an absent token is `undefined`,
      which `JSON.stringify` leaves out of the object. */
  function EncodeRefreshBody(t: Option<string>): (r: string)
    ensures Printable(r) && |r| >= 2 && r[0] == '{' && r[|r| - 1] == '}'
    ensures r == "{}" <==> t.None?
  {
    match t
    case None => "{}"
    case Some(v) =>
      EncodeStringPrintable(v);
      "{\"refresh_token\":" + (EncodeString(v) + "}")
  }

  /** The `refresh_token` member of a refresh request body (None inside when absent). */
  function DecodeRefreshBody(s: string): Option<Option<string>> {
    if s == "{}" then Some(None)
    else
      var a :- Lit("{\"refresh_token\":", s);
      var v :- ParseString(a);
      if v.rest == "}" then Some(Some(v.value)) else None
  }

  lemma DecodeEncodedRefreshBody(t: Option<string>)
    ensures DecodeRefreshBody(EncodeRefreshBody(t)) == Some(t)
  {
    if t.Some? {
      var key := "{\"refresh_token\":";
      var s := EncodeRefreshBody(t);
      assert s != "{}" by { assert s[1] == '"'; }
      LitPrefix(key, EncodeString(t.value) + "}");
      ParseEncodedString(t.value, "}");
    }
  }
}
