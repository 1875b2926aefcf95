/** Certificates in PEM text: _split_x509s takes the blocks out of a text, build_pem
    writes a certificate, its key and its intermediates into one.
 */
module PemBlocks {
  import opened Text

  const BEGIN := "-----BEGIN CERTIFICATE-----"
  const END := "-----END CERTIFICATE-----"
  const NL: Separator := "\n"

  /** str.replace("\r", "") */
  function WithoutReturns(s: string): (r: string)
    ensures '\r' !in r
  {
    if s == "" then ""
    else if s[0] == '\r' then WithoutReturns(s[1..])
    else [s[0]] + WithoutReturns(s[1..])
  }

  function Lines(text: string): (lines: seq<string>)
    ensures |lines| > 0
  {
    Split(NL, WithoutReturns(text))
  }

  // A text is made of junk lines and certificate blocks, then perhaps of a block that never ends.

  datatype Piece = Junk(line: string) | Certificate(body: seq<string>)

  function BlockLines(body: seq<string>): seq<string> { [BEGIN] + body + [END] }

  predicate IsPiece(p: Piece) {
    match p
    case Junk(line) => line != BEGIN
    case Certificate(body) => END !in body
  }

  predicate WellFormed(pieces: seq<Piece>) {
    forall i :: 0 <= i < |pieces| ==> IsPiece(pieces[i])
  }

  predicate Unfinished(tail: seq<string>) {
    tail == [] || (tail[0] == BEGIN && END !in tail)
  }

  function PieceLines(p: Piece): seq<string> {
    match p
    case Junk(line) => [line]
    case Certificate(body) => BlockLines(body)
  }

  function PieceText(p: Piece): seq<string> {
    match p
    case Junk(_) => []
    case Certificate(body) => [Join(NL, BlockLines(body))]
  }

  function Flatten(pieces: seq<Piece>): seq<string> {
    if pieces == [] then [] else PieceLines(pieces[0]) + Flatten(pieces[1..])
  }

  /** The text of every block, in order. */
  function Certificates(pieces: seq<Piece>): seq<string> {
    if pieces == [] then [] else PieceText(pieces[0]) + Certificates(pieces[1..])
  }

  ghost predicate IsLayout(lines: seq<string>, pieces: seq<Piece>, tail: seq<string>) {
    lines == Flatten(pieces) + tail && WellFormed(pieces) && Unfinished(tail)
  }

  // What the loop of _split_x509s yields from one state on.

  function Yields(lines: seq<string>, block: seq<string>, inside: bool): seq<string> {
    if lines == [] then []
    else if inside then
      if lines[0] == END then [Join(NL, block + [END])] + Yields(lines[1..], [], false)
      else Yields(lines[1..], block + [lines[0]], true)
    else if lines[0] == BEGIN then Yields(lines[1..], block + [BEGIN], true)
    else Yields(lines[1..], block, false)
  }

  lemma {:induction false} YieldsInside(body: seq<string>, rest: seq<string>, block: seq<string>)
    requires END !in body
    ensures Yields(body + [END] + rest, block, true)
         == [Join(NL, block + body + [END])] + Yields(rest, [], false)
  {
    var lines := body + [END] + rest;
    if body == [] {
      assert lines == [END] + rest;
      assert block + body == block;
    } else {
      assert lines[1..] == body[1..] + [END] + rest;
      YieldsInside(body[1..], rest, block + [body[0]]);
      assert block + [body[0]] + body[1..] == block + body;
    }
  }

  lemma {:induction false} YieldsNothing(lines: seq<string>, block: seq<string>)
    requires END !in lines
    ensures Yields(lines, block, true) == []
  {
    if lines != [] {
      YieldsNothing(lines[1..], block + [lines[0]]);
    }
  }

  lemma YieldsPiece(p: Piece, rest: seq<string>)
    requires IsPiece(p)
    ensures Yields(PieceLines(p) + rest, [], false) == PieceText(p) + Yields(rest, [], false)
  {
    hide BEGIN, END, NL, Join;
    var lines := PieceLines(p) + rest;
    match p
    case Junk(line) =>
      assert lines[1..] == rest;
    case Certificate(body) =>
      assert lines[1..] == body + [END] + rest;
      assert [] + [BEGIN] == [BEGIN];
      YieldsInside(body, rest, [BEGIN]);
  }

  lemma {:induction false} YieldsCertificates(pieces: seq<Piece>, tail: seq<string>)
    requires WellFormed(pieces) && Unfinished(tail)
    ensures Yields(Flatten(pieces) + tail, [], false) == Certificates(pieces)
  {
    hide BEGIN, END, PieceLines, PieceText, IsPiece;
    if pieces == [] {
      assert Flatten(pieces) + tail == tail;
      if tail != [] {
        YieldsNothing(tail[1..], [] + [BEGIN]);
      }
    } else {
      YieldsCertificates(pieces[1..], tail);
      YieldsPiece(pieces[0], Flatten(pieces[1..]) + tail);
      assert Flatten(pieces) + tail == PieceLines(pieces[0]) + (Flatten(pieces[1..]) + tail);
    }
  }

  /** _split_x509s */
  method SplitX509s(text: string) returns (blocks: seq<string>)
    ensures forall pieces, tail :: IsLayout(Lines(text), pieces, tail) ==> blocks == Certificates(pieces)
    ensures blocks == X509s(text)
  {
    var block: seq<string> := [];
    var inside := false;
    blocks := [];
    var lines := Lines(text);
    for i := 0 to |lines|
      invariant blocks + Yields(lines[i..], block, inside) == X509s(text)
      invariant !inside ==> block == []
    {
      var line := lines[i];
      assert lines[i..][1..] == lines[i + 1..];
      if inside {
        block := block + [line];
        if line == END {
          blocks := blocks + [Join(NL, block)];
          block := [];
          inside := false;
        }
      } else if line == BEGIN {
        block := block + [line];
        inside := true;
      }
    }
    forall pieces, tail | IsLayout(Lines(text), pieces, tail) ensures blocks == Certificates(pieces) {
      YieldsCertificates(pieces, tail);
    }
  }

  function X509s(text: string): seq<string> { Yields(Lines(text), [], false) }

  function FirstEnd(lines: seq<string>): (k: nat)
    ensures k <= |lines| && END !in lines[..k] && (k < |lines| ==> lines[k] == END)
  {
    if lines == [] || lines[0] == END then 0
    else
      var k := 1 + FirstEnd(lines[1..]);
      assert lines[..k] == [lines[0]] + lines[1..][..k - 1];
      k
  }

  lemma LayoutGrows(p: Piece, lines: seq<string>, pieces: seq<Piece>, tail: seq<string>)
    requires IsPiece(p) && IsLayout(lines, pieces, tail)
    ensures IsLayout(PieceLines(p) + lines, [p] + pieces, tail)
  {
    hide IsPiece, Unfinished, PieceLines;
    assert ([p] + pieces)[1..] == pieces;
  }

  /** Every text has a layout, so the blocks of every text are known. */
  lemma {:induction false} LayoutOf(lines: seq<string>) returns (pieces: seq<Piece>, tail: seq<string>)
    ensures IsLayout(lines, pieces, tail)
  {
    hide BEGIN, END;
    if lines == [] {
      pieces, tail := [], [];
    } else if lines[0] != BEGIN {
      pieces, tail := LayoutOf(lines[1..]);
      LayoutGrows(Junk(lines[0]), lines[1..], pieces, tail);
      assert lines == PieceLines(Junk(lines[0])) + lines[1..];
      pieces := [Junk(lines[0])] + pieces;
    } else {
      var k := FirstEnd(lines[1..]);
      if k == |lines| - 1 {
        assert lines[1..][..k] == lines[1..];
        assert lines == [BEGIN] + lines[1..];
        UnfinishedBlock(lines[1..]);
        pieces, tail := [], lines;
        assert Flatten([]) + lines == lines;
      } else {
        var p := Certificate(lines[1..][..k]);
        pieces, tail := LayoutOf(lines[k + 2..]);
        LayoutGrows(p, lines[k + 2..], pieces, tail);
        assert lines == PieceLines(p) + lines[k + 2..];
        pieces := [p] + pieces;
      }
    }
  }

  lemma UnfinishedBlock(lines: seq<string>)
    requires END !in lines
    ensures Unfinished([BEGIN] + lines)
  {
    assert |BEGIN| != |END|;
  }

  /** The text does not stop inside a block. */
  ghost predicate Closed(text: string) {
    exists pieces :: IsLayout(Lines(text), pieces, [])
  }

  lemma {:induction false} FlattenAppend(a: seq<Piece>, b: seq<Piece>)
    ensures Flatten(a + b) == Flatten(a) + Flatten(b)
    ensures Certificates(a + b) == Certificates(a) + Certificates(b)
  {
    hide PieceLines, PieceText;
    if a == [] {
      assert a + b == b;
    } else {
      assert (a + b)[0] == a[0] && (a + b)[1..] == a[1..] + b;
      FlattenAppend(a[1..], b);
    }
  }

  lemma LayoutAppend(a: seq<string>, p: seq<Piece>, b: seq<string>, q: seq<Piece>, tail: seq<string>)
    requires IsLayout(a, p, []) && IsLayout(b, q, tail)
    ensures IsLayout(a + b, p + q, tail)
  {
    hide PieceLines, IsPiece, Unfinished, Flatten;
    FlattenAppend(p, q);
    assert Flatten(p) + [] == Flatten(p);
    assert Flatten(p) + (Flatten(q) + tail) == Flatten(p + q) + tail;
  }

  lemma YieldsLayout(lines: seq<string>, pieces: seq<Piece>, tail: seq<string>)
    requires IsLayout(lines, pieces, tail)
    ensures Yields(lines, [], false) == Certificates(pieces)
  {
    YieldsCertificates(pieces, tail);
  }

  lemma YieldsAppend(a: seq<string>, pieces: seq<Piece>, b: seq<string>)
    requires IsLayout(a, pieces, [])
    ensures Yields(a + b, [], false) == Yields(a, [], false) + Yields(b, [], false)
  {
    hide *;
    var rest, tail := LayoutOf(b);
    LayoutAppend(a, pieces, b, rest, tail);
    FlattenAppend(pieces, rest);
    YieldsLayout(a, pieces, []);
    YieldsLayout(b, rest, tail);
    YieldsLayout(a + b, pieces + rest, tail);
  }

  lemma {:induction false} WithoutReturnsAppend(a: string, b: string)
    ensures WithoutReturns(a + b) == WithoutReturns(a) + WithoutReturns(b)
  {
    if a == "" {
      assert a + b == b;
    } else {
      assert (a + b)[1..] == a[1..] + b;
      WithoutReturnsAppend(a[1..], b);
    }
  }

  /** A return, wherever it stands, changes nothing. */
  lemma ReturnsAreIgnored(a: string, b: string)
    ensures X509s(a + "\r" + b) == X509s(a + b)
  {
    WithoutReturnsAppend(a + "\r", b);
    WithoutReturnsAppend(a, "\r");
    WithoutReturnsAppend(a, b);
    assert "\r"[1..] == "";
    assert WithoutReturns("\r") == "";
    assert a + "\r" + b == (a + "\r") + b;
    assert WithoutReturns(a + "\r" + b) == WithoutReturns(a) + WithoutReturns(b);
  }

  /** A text with CRLF line ends has the blocks of the same text with LF line ends. */
  lemma {:induction false} LineEndsDoNotMatter(before: string, lines: seq<string>)
    ensures X509s(before + Join("\r\n", lines)) == X509s(before + Join(NL, lines))
    decreases |lines|
  {
    if |lines| > 1 {
      var rest := Join("\r\n", lines[1..]);
      assert before + Join("\r\n", lines) == (before + lines[0]) + "\r" + (NL + rest);
      ReturnsAreIgnored(before + lines[0], NL + rest);
      assert (before + lines[0]) + (NL + rest) == (before + lines[0] + NL) + rest;
      LineEndsDoNotMatter(before + lines[0] + NL, lines[1..]);
      assert (before + lines[0] + NL) + Join(NL, lines[1..]) == before + Join(NL, lines);
    }
  }

  lemma LinesAppend(a: string, b: string)
    ensures Lines(a + NL + b) == Lines(a) + Lines(b)
  {
    WithoutReturnsAppend(a + NL, b);
    WithoutReturnsAppend(a, NL);
    assert WithoutReturns(NL) == NL;
    SplitAppend(NL, WithoutReturns(a), WithoutReturns(b));
  }

  /** A text that is closed can be followed by anything without mixing their blocks. */
  lemma BlocksAppend(a: string, b: string)
    requires Closed(a)
    ensures X509s(a + NL + b) == X509s(a) + X509s(b)
  {
    LinesAppend(a, b);
    var pieces :| IsLayout(Lines(a), pieces, []);
    YieldsAppend(Lines(a), pieces, Lines(b));
  }

  // build_pem

  /** The certificate, the key, if it is not empty, and the intermediates. */
  datatype TlsContainer = TlsContainer(
    certificate: string, privateKey: string, intermediates: seq<string>)

  function Parts(c: TlsContainer): seq<string> {
    [c.certificate] + (if c.privateKey != "" then [c.privateKey] else []) + c.intermediates
  }

  /** The texts, each with a newline. */
  function Ended(texts: seq<string>): string {
    if texts == [] then "" else texts[0] + "\n" + Ended(texts[1..])
  }

  lemma {:induction false} JoinedIsEnded(texts: seq<string>)
    requires texts != []
    ensures Join(NL, texts) + NL == Ended(texts)
  {
    if |texts| > 1 {
      JoinedIsEnded(texts[1..]);
      assert Join(NL, texts) + NL == texts[0] + NL + (Join(NL, texts[1..]) + NL);
    } else {
      assert Ended(texts[1..]) == "";
    }
  }

  method BuildPem(c: TlsContainer) returns (text: string)
    ensures text == Join(NL, Parts(c)) + NL
    ensures text == c.certificate + "\n" + (if c.privateKey == "" then "" else c.privateKey + "\n") + Ended(c.intermediates)
  {
    var pem := [c.certificate];
    if c.privateKey != "" {
      pem := pem + [c.privateKey];
    }
    if |c.intermediates| > 0 {
      pem := pem + c.intermediates[..];
    }
    assert pem == Parts(c);
    text := Join(NL, pem) + NL;
    JoinedIsEnded(pem);
    assert pem[1..] == (if c.privateKey != "" then [c.privateKey] else []) + c.intermediates;
    if c.privateKey != "" {
      assert pem[1..][1..] == c.intermediates;
    } else {
      assert pem[1..] == c.intermediates;
    }
  }

  ghost predicate AllClosed(texts: seq<string>) {
    forall i :: 0 <= i < |texts| ==> Closed(texts[i])
  }

  function BlocksOfAll(texts: seq<string>): seq<string> {
    if texts == [] then [] else X509s(texts[0]) + BlocksOfAll(texts[1..])
  }

  lemma ClosedAppend(a: string, b: string)
    requires Closed(a) && Closed(b)
    ensures Closed(a + NL + b)
  {
    hide IsLayout, Lines;
    var p :| IsLayout(Lines(a), p, []);
    var q :| IsLayout(Lines(b), q, []);
    LinesAppend(a, b);
    LayoutAppend(Lines(a), p, Lines(b), q, []);
  }

  lemma EmptyText()
    ensures Closed("") && X509s("") == []
  {
    assert Lines("") == Flatten([Junk("")]) by {
      assert [Junk("")][1..] == [];
    }
    assert IsLayout(Lines(""), [Junk("")], []);
  }

  lemma {:induction false} BlocksOfJoined(texts: seq<string>)
    requires AllClosed(texts)
    ensures Closed(Join(NL, texts)) && X509s(Join(NL, texts)) == BlocksOfAll(texts)
  {
    hide Closed, X509s, Lines;
    if texts == [] {
      EmptyText();
    } else if |texts| == 1 {
      assert BlocksOfAll(texts[1..]) == [];
    } else {
      BlocksOfJoined(texts[1..]);
      BlocksAppend(texts[0], Join(NL, texts[1..]));
      ClosedAppend(texts[0], Join(NL, texts[1..]));
    }
  }

  lemma FinalNewline(texts: seq<string>)
    requires AllClosed(texts)
    ensures X509s(Join(NL, texts) + NL) == BlocksOfAll(texts)
  {
    BlocksOfJoined(texts);
    EmptyText();
    BlocksAppend(Join(NL, texts), "");
    assert Join(NL, texts) + NL + "" == Join(NL, texts) + NL;
  }

  /** The text of one well-formed block (section 5 of RFC 7468, bodies opaque). */
  ghost predicate IsBlock(text: string) {
    exists body :: IsBody(body) && text == Join(NL, BlockLines(body))
  }

  ghost predicate IsBody(body: seq<string>) {
    END !in body && forall i :: 0 <= i < |body| ==> IsLine(body[i])
  }

  predicate IsLine(s: string) { '\n' !in s && '\r' !in s }

  lemma {:induction false} PlainText(s: string)
    requires '\r' !in s
    ensures WithoutReturns(s) == s
  {
    if s != "" {
      PlainText(s[1..]);
    }
  }

  lemma {:induction false} JoinIsPlain(lines: seq<string>)
    requires forall i :: 0 <= i < |lines| ==> IsLine(lines[i])
    ensures '\r' !in Join(NL, lines)
  {
    if |lines| > 1 {
      JoinIsPlain(lines[1..]);
    }
  }

  lemma NewlineIsWithin(s: string)
    ensures Within(NL, s) <==> '\n' in s
  {
    forall k | 0 <= k < |s| ensures At(NL, s, k) <==> s[k] == '\n' {
      assert s[k..k + 1] == [s[k]];
    }
  }

  lemma LinesOfJoined(lines: seq<string>)
    requires |lines| > 0 && forall i :: 0 <= i < |lines| ==> IsLine(lines[i])
    ensures Lines(Join(NL, lines)) == lines
  {
    JoinIsPlain(lines);
    PlainText(Join(NL, lines));
    forall i | 0 <= i < |lines| ensures !Within(NL, lines[i]) {
      NewlineIsWithin(lines[i]);
    }
    SplitUndoesJoin(NL, lines);
  }

  lemma BlockIsClosed(text: string)
    requires IsBlock(text)
    ensures Closed(text) && X509s(text) == [text]
  {
    var body :| IsBody(body) && text == Join(NL, BlockLines(body));
    var lines := BlockLines(body);
    BlockHoldsLines(body);
    LinesOfJoined(lines);
    OnePiece(body);
    YieldsCertificates([Certificate(body)], []);
    assert lines + [] == lines;
  }

  lemma BlockHoldsLines(body: seq<string>)
    requires IsBody(body)
    ensures forall i :: 0 <= i < |BlockLines(body)| ==> IsLine(BlockLines(body)[i])
  {
    assert IsLine(BEGIN) && IsLine(END);
  }

  lemma OnePiece(body: seq<string>)
    requires END !in body
    ensures IsLayout(BlockLines(body), [Certificate(body)], [])
    ensures Certificates([Certificate(body)]) == [Join(NL, BlockLines(body))]
  {
    hide BEGIN, END, BlockLines, Join;
    assert [Certificate(body)][1..] == [];
    assert Flatten([Certificate(body)]) == BlockLines(body) + [];
  }

  lemma {:induction false} JunkIsClosed(lines: seq<string>)
    requires BEGIN !in lines
    ensures exists pieces :: IsLayout(lines, pieces, []) && Certificates(pieces) == []
  {
    if lines == [] {
      assert IsLayout(lines, [], []);
    } else {
      JunkIsClosed(lines[1..]);
      var rest :| IsLayout(lines[1..], rest, []) && Certificates(rest) == [];
      var pieces := [Junk(lines[0])] + rest;
      assert pieces[1..] == rest;
      assert IsLayout(lines, pieces, []);
    }
  }

  lemma {:induction false} BlocksOfBlocks(texts: seq<string>)
    requires forall i :: 0 <= i < |texts| ==> IsBlock(texts[i])
    ensures AllClosed(texts) && BlocksOfAll(texts) == texts
  {
    if texts != [] {
      BlockIsClosed(texts[0]);
      BlocksOfBlocks(texts[1..]);
      assert AllClosed(texts) by {
        forall i | 0 <= i < |texts| ensures Closed(texts[i]) {
          if i > 0 {
            assert texts[i] == texts[1..][i - 1];
          }
        }
      }
    }
  }

  /** What was split comes out whole: splitting the blocks put together gives the same blocks. */
  lemma SplittingTwiceIsSplitting(text: string)
    ensures X509s(Join(NL, X509s(text))) == X509s(text)
  {
    AllAreBlocks(text);
    BlocksOfBlocks(X509s(text));
    BlocksOfJoined(X509s(text));
  }

  lemma {:induction false} CertificatesAreBlocks(pieces: seq<Piece>, lines: seq<string>)
    requires WellFormed(pieces) && lines == Flatten(pieces)
    requires forall i :: 0 <= i < |lines| ==> IsLine(lines[i])
    ensures forall i :: 0 <= i < |Certificates(pieces)| ==> IsBlock(Certificates(pieces)[i])
  {
    if pieces != [] {
      var rest := Flatten(pieces[1..]);
      var n := |lines| - |rest|;
      assert forall i :: 0 <= i < |rest| ==> rest[i] == lines[n + i];
      CertificatesAreBlocks(pieces[1..], rest);
      if pieces[0].Certificate? {
        var body := pieces[0].body;
        assert forall i :: 0 <= i < |body| ==> body[i] == lines[1 + i];
        assert IsBody(body);
      }
    }
  }

  lemma AllAreBlocks(text: string)
    ensures forall i :: 0 <= i < |X509s(text)| ==> IsBlock(X509s(text)[i])
  {
    var plain := WithoutReturns(text);
    var lines := Lines(text);
    JoinUndoesSplit(NL, plain);
    forall i | 0 <= i < |lines| ensures IsLine(lines[i]) {
      NewlineIsWithin(lines[i]);
      PartsArePlain(lines, i);
    }
    var pieces, tail := LayoutOf(lines);
    YieldsCertificates(pieces, tail);
    assert forall i :: 0 <= i < |Flatten(pieces)| ==> Flatten(pieces)[i] == lines[i];
    CertificatesAreBlocks(pieces, Flatten(pieces));
  }

  lemma {:induction false} PartsArePlain(lines: seq<string>, i: nat)
    requires i < |lines| && '\r' !in Join(NL, lines)
    ensures '\r' !in lines[i]
  {
    if |lines| > 1 && i > 0 {
      assert forall k :: 0 <= k < |Join(NL, lines[1..])| ==>
        Join(NL, lines[1..])[k] == Join(NL, lines)[|lines[0]| + 1 + k];
      PartsArePlain(lines[1..], i - 1);
    } else {
      assert forall k :: 0 <= k < |lines[0]| ==> lines[0][k] == Join(NL, lines)[k];
    }
  }

  /** The file written for a certificate, a key that holds no certificate and a chain
      of intermediates splits into the blocks of the certificate and of the
      intermediates, whatever else stands around these blocks in their texts. */
  lemma BuiltPemKeepsBlocks(c: TlsContainer)
    requires Closed(c.certificate) && AllClosed(c.intermediates)
    requires BEGIN !in Lines(c.privateKey)
    ensures X509s(Join(NL, Parts(c)) + NL) == X509s(c.certificate) + BlocksOfAll(c.intermediates)
  {
    hide BEGIN, Lines, X509s, Join, Closed;
    var chain := c.intermediates;
    if c.privateKey != "" {
      KeyIsClosed(c.privateKey);
      chain := [c.privateKey] + chain;
      ClosedChain(c.privateKey, c.intermediates);
    }
    ClosedChain(c.certificate, chain);
    assert Parts(c) == [c.certificate] + chain;
    FinalNewline(Parts(c));
  }

  /** Where these texts are blocks, they come back as they were. */
  lemma BuiltPemSplitsBack(c: TlsContainer)
    requires IsBlock(c.certificate)
    requires BEGIN !in Lines(c.privateKey)
    requires forall i :: 0 <= i < |c.intermediates| ==> IsBlock(c.intermediates[i])
    ensures X509s(Join(NL, Parts(c)) + NL) == [c.certificate] + c.intermediates
  {
    hide BEGIN, Lines, X509s, Join, Closed, IsBlock;
    BlockIsClosed(c.certificate);
    BlocksOfBlocks(c.intermediates);
    BuiltPemKeepsBlocks(c);
  }

  lemma ClosedChain(first: string, rest: seq<string>)
    requires Closed(first) && AllClosed(rest)
    ensures AllClosed([first] + rest)
    ensures BlocksOfAll([first] + rest) == X509s(first) + BlocksOfAll(rest)
  {
    hide Closed, X509s;
    assert ([first] + rest)[1..] == rest;
  }

  lemma KeyIsClosed(key: string)
    requires BEGIN !in Lines(key)
    ensures Closed(key) && X509s(key) == []
  {
    JunkIsClosed(Lines(key));
    var pieces :| IsLayout(Lines(key), pieces, []) && Certificates(pieces) == [];
    YieldsCertificates(pieces, []);
    assert Flatten(pieces) + [] == Lines(key);
  }
}
