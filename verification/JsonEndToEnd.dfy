/** The printers, the minifier, the copier and the parser run one after the other. */
module JsonEndToEnd {
  import opened Bytes
  import opened Bits
  import opened Buffers
  import opened JsonText
  import opened JsonRoundTrip
  import opened JsonItems
  import opened JsonTrees
  import opened JsonTreeParser
  import opened JsonPrinters
  import opened JsonMinify
  import opened JsonMinifyText
  import D = JsonDocuments
  import G = JsonGrammar
  import N = JsonNumerals
  import JsonBuffered
  import JsonPieces

  /** The C string in a buffer. */
  method CString(out: array<byte>, ghost text: bytes) returns (s: bytes)
    requires Terminated(out, text) && NoNul(text)
    ensures s == text
  {
    var n := StringLength(out, 0, text);
    s := out[..n];
  }

  /** Both printing modes, whatever the first buffer size, give the same text. */
  method PrintBothWays(item: Item, prebuffer: nat, fmt: bool, ghost s: Shape, ghost t: Json)
    returns (shared: bytes, pieces: bytes)
    requires Tree(item, s, t) && Printable(t) && |Text(t, 0, fmt)| + 21 <= Pow2(30)
    ensures shared == pieces == Text(t, 0, fmt)
  {
    hide Tree, Text;
    NodesExist(s);
    TextNoNul(t, 0, fmt);
    var a := JsonBuffered.PrintBuffered(item, prebuffer, fmt, s, t);
    NodesExist(s);
    var b := JsonPieces.Print(item, fmt, s, t);
    shared := CString(a, Text(t, 0, fmt));
    pieces := CString(b, Text(t, 0, fmt));
  }

  /** Printing a linked tree and parsing the text builds a new linked tree for the same value, and uses up the text. */
  method PrintAndParse(item: Item, prebuffer: nat, fmt: bool, requireEnd: bool, ghost s: Shape, ghost t: Json)
    returns (text: bytes, end: Reached, root: Item?, ghost sh: Shape)
    requires Tree(item, s, t) && Printable(t) && |Text(t, 0, fmt)| + 21 <= Pow2(30)
    ensures end == Upto(|text|) && root != null && Tree(root, sh, t) && Apart(sh) && fresh(Nodes(sh))
  {
    hide Text, Linked, Denotes, ContentOf, Apart;
    TextRoundTrip(t, fmt, requireEnd);
    var pieces;
    text, pieces := PrintBothWays(item, prebuffer, fmt, s, t);
    end, root, sh := ParseWithOpts(text, requireEnd);
  }

  /** Parsing a numeral builds a number item: its value is what the numeral says, and its integer that value without
      its fraction. */
  method ParseNumeral(ghost x: N.Numeral, s: bytes, requireEnd: bool) returns (end: Reached, root: Item?)
    requires N.IsNumeral(x) && s == N.NumeralText(x)
    ensures end == Upto(|s|) && root != null && root.kind == KNumber && N.IsWorth(root.valuedouble, x)
    ensures 0.0 <= root.valuedouble ==> root.valueint as real <= root.valuedouble < (root.valueint + 1) as real
    ensures root.valuedouble <= 0.0 ==> (root.valueint - 1) as real < root.valuedouble <= root.valueint as real
  {
    hide N.NumeralText, N.IsWorth, Linked, Apart;
    ghost var none: bytes := [];
    assert none + (s + none) == s;
    ghost var d := N.NumeralIsText(x, none, none, requireEnd);
    ghost var sh;
    end, root, sh := ParseWithOpts(s, requireEnd);
  }

  /** Parsing to the end builds a tree exactly for the texts of documents, with white space around them, and the tree is
      that of the document. */
  method ParseDocument(s: bytes) returns (root: Item?, ghost sh: Shape, ghost x: D.Item)
    ensures root != null ==> D.ItemStands(x, []) && D.ItemText(x, []) == s && Tree(root, sh, D.DocValue(x.doc)) && Apart(sh)
    ensures root != null <==> exists x: D.Item :: D.ItemStands(x, []) && D.ItemText(x, []) == s
  {
    hide D.ItemStands, D.ItemText, D.DocValue, Linked, Denotes, ContentOf, Apart;
    var end;
    end, root, sh := ParseWithOpts(s, true);
    x := D.Item([], D.NoItems([]), []);
    if root != null {
      ghost var t := ParsedTree(s);
      x := D.WholeOf(s, t);
    } else {
      forall x: D.Item | D.ItemStands(x, []) && D.ItemText(x, []) == s ensures false {
        D.WholeParses(x);
      }
    }
  }

  ghost function ParsedTree(s: bytes): (t: Json)
    requires G.Parse(s, true).Ok?
    ensures G.Parse(s, true) == G.Ok(t, [])
  {
    G.Parse(s, true).value
  }

  /** Minifying a text in place leaves what a byte-by-byte reader of comments and literals keeps of it; it is carried over
      the end of the text if and only if a block comment or a literal is still open there. */
  method MinifyText(a: array<byte>, ghost s: bytes) returns (ok: bool)
    requires Unread(a, 0, s)
    modifies a
    ensures ok <==> !IsOpen(ReadAll(Plain, s))
    ensures ok ==> Unread(a, 0, KeptOf(Plain, s))
  {
    hide KeptOf, ReadAll;
    MinifyIsReading(s);
    ok := MinifyInPlace(a, s);
  }

  /** Printing with white space, minifying in place and parsing builds a tree for the same value. */
  method PrintMinifyAndParse(item: Item, ghost s: Shape, ghost t: Json) returns (root: Item?, ghost sh: Shape)
    requires Tree(item, s, t) && Printable(t)
    ensures root != null && Tree(root, sh, t) && Apart(sh) && fresh(Nodes(sh))
  {
    hide Text, Linked, Denotes, ContentOf, Apart;
    TextNoNul(t, 0, true);
    TextNoNul(t, 0, false);
    MinifyOfFormatted(t);
    TextRoundTrip(t, false, true);
    var a := JsonPieces.Print(item, true, s, t);
    var _ := MinifyInPlace(a, Text(t, 0, true));
    var text := CString(a, Text(t, 0, false));
    var end;
    end, root, sh := ParseWithOpts(text, true);
  }

  /** A deep copy prints like its original. */
  method PrintCopy(item: Item, fmt: bool, ghost s: Shape, ghost t: Json) returns (text: bytes)
    requires Tree(item, s, t) && Printable(t)
    ensures text == Text(t, 0, fmt)
  {
    hide Text, Linked, Denotes, ContentOf, Apart;
    TextNoNul(t, 0, fmt);
    NodesExist(s);
    var copy, c := Duplicate(item, true, s);
    NodesExist(c);
    var out := JsonPieces.Print(copy, fmt, c, t);
    text := CString(out, Text(t, 0, fmt));
  }
}
