/** The `multipart/related` body of the create request (RFC 2387), with the
    delimiters of section 5.1.1 of RFC 2046, and the reading of such a body
    into its parts that the receiving server performs. The main result is that
    the body the extension builds always splits back into exactly the metadata
    and content it was built from: JSON text never holds a CR, so the boundary
    cannot occur inside a part. */
module Multipart {
  import opened Base
  import Json

  /** The fixed boundary string of the create request. */
  const Boundary: string := "-------314159265358979323846"

  /** Header lines of the two parts, without the blank line that ends them. */
  const MetadataContentType: string := "Content-Type: application/json; charset=UTF-8"
  const ContentContentType: string := "Content-Type: application/json"

  /** The blank line that ends a part's headers. */
  const HeaderEnd: string := "\r\n\r\n"

  /** The `Content-Type` header of the whole request. */
  const RequestContentType: string := "multipart/related; boundary=\"" + Boundary + "\""

  /** CRLF and the dash-boundary: the text that ends every body part. */
  function BoundaryLine(boundary: string): string {
    "\r\n--" + boundary
  }

  function Delimiter(boundary: string): string {
    "\r\n--" + boundary + "\r\n"
  }

  function CloseDelimiter(boundary: string): string {
    "\r\n--" + boundary + "--"
  }

  datatype Part = Part(headers: string, body: string)

  /** A two-part body: delimiter, first part, delimiter, second part, close
      delimiter, joined in that order (no preamble, no epilogue). */
  function TwoPartBody(boundary: string, h1: string, b1: string, h2: string, b2: string): string {
    Delimiter(boundary) + (h1 + HeaderEnd) + b1 + Delimiter(boundary) + (h2 + HeaderEnd) + b2 + CloseDelimiter(boundary)
  }

  /** The body of the create request: the JSON metadata part, then the JSON
      content part. The server reads it back into exactly those two parts
      whenever the parts are safe to place in a body. */
  function CreateBody(metadata: string, content: string): (r: string)
    ensures SafePart(metadata) && SafePart(content) ==>
              ParseBody(Boundary, r) == Some([Part(MetadataContentType, metadata), Part(ContentContentType, content)])
  {
    if SafePart(metadata) && SafePart(content) then
      HeaderLinesNoCR();
      ParseTwoPartBody(Boundary, MetadataContentType, metadata, ContentContentType, content);
      TwoPartBody(Boundary, MetadataContentType, metadata, ContentContentType, content)
    else
      TwoPartBody(Boundary, MetadataContentType, metadata, ContentContentType, content)
  }

  /** The boundary parameter the server reads from the request's `Content-Type`. */
  function BoundaryParam(contentType: string): Option<string> {
    var rest :- Json.Lit("multipart/related; boundary=\"", contentType);
    if |rest| > 0 && rest[|rest| - 1] == '"' then Some(rest[..|rest| - 1]) else None
  }

  /** The request header names the boundary the body is built with. */
  lemma RequestBoundary()
    ensures BoundaryParam(RequestContentType) == Some(Boundary)
  {
    var key := "multipart/related; boundary=\"";
    var rest := Boundary + "\"";
    assert RequestContentType == key + rest;
    Json.LitPrefix(key, rest);
    assert rest[..|rest| - 1] == Boundary;
  }

  // ---------------------------------------------------------------------------
  // Searching for a delimiter

  predicate OccursAt(pat: string, s: string, i: nat) {
    i + |pat| <= |s| && s[i..i + |pat|] == pat
  }

  predicate NoCR(s: string) {
    '\r' !in s
  }

  /** The first position at or after `i` where `pat` occurs in `s`. */
  function FindFrom(pat: string, s: string, i: nat): (r: Option<nat>)
    requires i <= |s|
    ensures r.Some? ==> i <= r.value && OccursAt(pat, s, r.value)
    ensures r.Some? ==> forall j :: i <= j < r.value ==> !OccursAt(pat, s, j)
    ensures r.None? ==> forall j :: i <= j <= |s| ==> !OccursAt(pat, s, j)
    decreases |s| - i
  {
    if OccursAt(pat, s, i) then Some(i)
    else if i == |s| then None
    else FindFrom(pat, s, i + 1)
  }

  /** `pat` placed after `x` is found there when it does not occur earlier. */
  lemma FindAfter(pat: string, x: string, y: string)
    requires forall j :: 0 <= j < |x| ==> !OccursAt(pat, x + pat + y, j)
    ensures FindFrom(pat, x + pat + y, 0) == Some(|x|)
  {
    var s := x + pat + y;
    assert s[|x|..|x| + |pat|] == pat;
    assert OccursAt(pat, s, |x|);
  }

  /** A pattern starting with CR is first found right after a CR-free prefix. */
  lemma FindAfterNoCR(pat: string, x: string, y: string)
    requires |pat| > 0 && pat[0] == '\r' && NoCR(x)
    ensures FindFrom(pat, x + pat + y, 0) == Some(|x|)
  {
    var s := x + pat + y;
    forall j | 0 <= j < |x|
      ensures !OccursAt(pat, s, j)
    {
      assert s[j] == x[j];
      if j + |pat| <= |s| {
        assert s[j..j + |pat|][0] == s[j];
      }
    }
    FindAfter(pat, x, y);
  }

  /** The boundary line does not start inside a part made of a CR-free header
      line, the blank line, and a CR-free body that does not begin with `-`. */
  lemma NoBoundaryInPart(bl: string, h: string, b: string, y: string)
    requires |bl| >= 3 && bl[0] == '\r' && bl[2] == '-'
    requires NoCR(h) && SafePart(b)
    ensures forall j :: 0 <= j < |h + HeaderEnd + b| ==> !OccursAt(bl, h + HeaderEnd + b + bl + y, j)
  {
    var x := h + HeaderEnd + b;
    var s := x + bl + y;
    forall j | 0 <= j < |x|
      ensures !OccursAt(bl, s, j)
    {
      if j + |bl| <= |s| {
        assert s[j..j + |bl|][0] == s[j] && s[j..j + |bl|][2] == s[j + 2];
        assert s[j] != '\r' || s[j + 2] != '-' by {
          if j < |h| {
            assert s[j] == h[j];
          } else if j == |h| {
            assert s[j + 2] == HeaderEnd[2];
          } else if j == |h| + 2 {
            if |b| > 0 {
              assert s[j + 2] == b[0];
            } else {
              assert s[j + 2] == bl[0];
            }
          } else if j < |h| + 4 {
            assert s[j] == HeaderEnd[j - |h|];
          } else {
            assert s[j] == b[j - |h| - 4];
          }
        }
      }
    }
  }

  // ---------------------------------------------------------------------------
  // Reading a body back into parts (section 5.1.1 of RFC 2046)

  /** Splits the text after the opening delimiter into the raw body parts;
      whatever follows the close delimiter (the epilogue) is ignored. */
  function SplitParts(boundary: string, s: string): (r: Option<seq<string>>)
    ensures r.Some? ==> |r.value| > 0
    decreases |s|
  {
    var bl := BoundaryLine(boundary);
    var i :- FindFrom(bl, s, 0);
    var after := s[i + |bl|..];
    if |after| >= 2 && after[..2] == "--" then Some([s[..i]])
    else if |after| >= 2 && after[..2] == "\r\n" then
      var more :- SplitParts(boundary, after[2..]);
      Some([s[..i]] + more)
    else None
  }

  /** Separates a raw part into its header lines and its body. */
  function SplitHeaders(raw: string): Option<Part> {
    var i :- FindFrom(HeaderEnd, raw, 0);
    Some(Part(raw[..i], raw[i + |HeaderEnd|..]))
  }

  function SplitAll(raws: seq<string>): (r: Option<seq<Part>>)
    ensures r.Some? ==> |r.value| == |raws|
  {
    if |raws| == 0 then Some([])
    else
      var p :- SplitHeaders(raws[0]);
      var ps :- SplitAll(raws[1..]);
      Some([p] + ps)
  }

  /** The parts of a body that opens with CRLF and the dash-boundary. */
  function ParseBody(boundary: string, body: string): Option<seq<Part>> {
    var rest :- Json.Lit(Delimiter(boundary), body);
    var raws :- SplitParts(boundary, rest);
    SplitAll(raws)
  }

  /** A part body that the boundary cannot collide with. */
  predicate SafePart(b: string) {
    NoCR(b) && (|b| > 0 ==> b[0] != '-')
  }

  lemma SplitPartsStep(boundary: string, x: string, y: string, more: seq<string>)
    requires forall j :: 0 <= j < |x| ==> !OccursAt(BoundaryLine(boundary), x + BoundaryLine(boundary) + y, j)
    requires |y| >= 2 && y[..2] == "\r\n" && SplitParts(boundary, y[2..]) == Some(more)
    ensures SplitParts(boundary, x + BoundaryLine(boundary) + y) == Some([x] + more)
  {
    var bl := BoundaryLine(boundary);
    var s := x + bl + y;
    FindAfter(bl, x, y);
    assert s[..|x|] == x;
    assert s[|x| + |bl|..] == y;
  }

  lemma SplitPartsLast(boundary: string, x: string, y: string)
    requires forall j :: 0 <= j < |x| ==> !OccursAt(BoundaryLine(boundary), x + BoundaryLine(boundary) + y, j)
    requires |y| >= 2 && y[..2] == "--"
    ensures SplitParts(boundary, x + BoundaryLine(boundary) + y) == Some([x])
  {
    var bl := BoundaryLine(boundary);
    var s := x + bl + y;
    FindAfter(bl, x, y);
    assert s[..|x|] == x;
    assert s[|x| + |bl|..] == y;
  }

  lemma SplitHeadersOf(h: string, b: string)
    requires NoCR(h)
    ensures SplitHeaders(h + HeaderEnd + b) == Some(Part(h, b))
  {
    var raw := h + HeaderEnd + b;
    FindAfterNoCR(HeaderEnd, h, b);
    assert raw[..|h|] == h;
    assert raw[|h| + |HeaderEnd|..] == b;
  }

  lemma SplitAllCons(raws: seq<string>, p: Part, ps: seq<Part>)
    requires |raws| > 0 && SplitHeaders(raws[0]) == Some(p) && SplitAll(raws[1..]) == Some(ps)
    ensures SplitAll(raws) == Some([p] + ps)
  {
  }

  lemma SplitAllTwo(h1: string, b1: string, h2: string, b2: string)
    requires NoCR(h1) && NoCR(h2)
    ensures SplitAll([h1 + HeaderEnd + b1, h2 + HeaderEnd + b2]) == Some([Part(h1, b1), Part(h2, b2)])
  {
    var r1, r2 := h1 + HeaderEnd + b1, h2 + HeaderEnd + b2;
    SplitHeadersOf(h1, b1);
    SplitHeadersOf(h2, b2);
    assert [r2][1..] == [];
    SplitAllCons([r2], Part(h2, b2), []);
    assert [Part(h2, b2)] + [] == [Part(h2, b2)];
    assert [r1, r2][1..] == [r2];
    SplitAllCons([r1, r2], Part(h1, b1), [Part(h2, b2)]);
    assert [Part(h1, b1)] + [Part(h2, b2)] == [Part(h1, b1), Part(h2, b2)];
  }

  /** A two-part body regrouped as the opening delimiter followed by two parts,
      each ended by the boundary line. */
  lemma TwoPartBodyShape(boundary: string, h1: string, b1: string, h2: string, b2: string)
    ensures TwoPartBody(boundary, h1, b1, h2, b2)
         == Delimiter(boundary) + (h1 + HeaderEnd + b1 + BoundaryLine(boundary)
                                   + ("\r\n" + (h2 + HeaderEnd + b2 + BoundaryLine(boundary) + "--")))
  {
    var bl := BoundaryLine(boundary);
    assert Delimiter(boundary) == bl + "\r\n";
    assert CloseDelimiter(boundary) == bl + "--";
  }

  lemma SplitTwoParts(boundary: string, h1: string, b1: string, h2: string, b2: string)
    requires NoCR(h1) && NoCR(h2) && SafePart(b1) && SafePart(b2)
    ensures SplitParts(boundary, h1 + HeaderEnd + b1 + BoundaryLine(boundary)
                                 + ("\r\n" + (h2 + HeaderEnd + b2 + BoundaryLine(boundary) + "--")))
         == Some([h1 + HeaderEnd + b1, h2 + HeaderEnd + b2])
  {
    var bl := BoundaryLine(boundary);
    var x1, x2 := h1 + HeaderEnd + b1, h2 + HeaderEnd + b2;
    var tail1 := "\r\n" + (x2 + bl + "--");
    NoBoundaryInPart(bl, h1, b1, tail1);
    NoBoundaryInPart(bl, h2, b2, "--");
    assert tail1[..2] == "\r\n" && tail1[2..] == x2 + bl + "--";
    SplitPartsLast(boundary, x2, "--");
    SplitPartsStep(boundary, x1, tail1, [x2]);
    assert [x1] + [x2] == [x1, x2];
  }

  /** A two-part body reads back into exactly the parts it was built from,
      whatever the boundary, when the header lines are CR-free and the part
      bodies are CR-free and do not begin with `-`. */
  lemma ParseTwoPartBody(boundary: string, h1: string, b1: string, h2: string, b2: string)
    requires NoCR(h1) && NoCR(h2) && SafePart(b1) && SafePart(b2)
    ensures ParseBody(boundary, TwoPartBody(boundary, h1, b1, h2, b2)) == Some([Part(h1, b1), Part(h2, b2)])
  {
    var bl := BoundaryLine(boundary);
    var rest := h1 + HeaderEnd + b1 + bl + ("\r\n" + (h2 + HeaderEnd + b2 + bl + "--"));
    TwoPartBodyShape(boundary, h1, b1, h2, b2);
    Json.LitPrefix(Delimiter(boundary), rest);
    SplitTwoParts(boundary, h1, b1, h2, b2);
    SplitAllTwo(h1, b1, h2, b2);
  }

  lemma HeaderLinesNoCR()
    ensures NoCR(MetadataContentType) && NoCR(ContentContentType)
  {
  }

  /** JSON text from the encoders is always safe to place in a part. */
  lemma PrintableIsSafe(s: string)
    requires Json.Printable(s) && (|s| > 0 ==> s[0] == '{' || s[0] == '[')
    ensures SafePart(s)
  {
    assert forall i :: 0 <= i < |s| ==> s[i] != '\r';
  }
}
