/**
 * The C++ source that `generate_code` emits: a fixed template into which
 * the screen flag, the four geometry integers and the three colour
 * channels are spliced as literals. `ReadArtifact` reads those literals
 * back, and `ReadArtifactRoundTrip` shows that it recovers every one.
 */
module Emit {
  import opened Wrappers
  import opened Decimal
  import opened Text

  /** `str(is_bottom).lower()`. */
  function BoolLiteral(b: bool): string {
    if b then "true" else "false"
  }

  /** The decimal renderings of a list of integers, in order. */
  function Decimals(s: seq<int>): (ds: seq<string>)
    ensures |ds| == |s|
    ensures forall i :: 0 <= i < |s| ==> ds[i] == IntToString(s[i])
  {
    seq(|s|, i requires 0 <= i < |s| => IntToString(s[i]))
  }

  /** Python's `str(list)` for a list of integers: `[1, 2, 3]`. */
  function ListRepr(s: seq<int>): string {
    "[" + Join(", ", Decimals(s)) + "]"
  }

  /** `str(channel)[1:-1].replace(" ", "")`, exactly as the emitter writes it. */
  function ChannelBody(s: seq<int>): string {
    RemoveChar(Inner(ListRepr(s)), ' ')
  }

  /** The body of a channel array is its values in decimal, joined by
      commas and nothing else; it is empty exactly for an empty channel. */
  lemma ChannelBodyIsCommaJoin(s: seq<int>)
    ensures ChannelBody(s) == Join(",", Decimals(s))
    ensures ChannelBody(s) == "" <==> s == []
    ensures '}' !in ChannelBody(s)
  {
    var ds := Decimals(s);
    forall i | 0 <= i < |ds| ensures ' ' !in ds[i] && ',' !in ds[i] && '}' !in ds[i] {
      DecimalTextHasNoDelimiter(ds[i]);
    }
    InnerOfBracketed('[', Join(", ", ds), ']');
    RemoveSpacesOfJoin(ds);
    JoinAvoids(",", ds, '}');
    if s != [] {
      JoinNonEmpty(",", ds);
    }
  }

  /** Parses every piece as an integer; fails if one does not parse. */
  function ParseAll(pieces: seq<string>): Option<seq<int>>
    decreases |pieces|
  {
    if pieces == [] then Some([])
    else
      var v :- ParseInt(pieces[0]);
      var rest :- ParseAll(pieces[1..]);
      Some([v] + rest)
  }

  /** Reads an array body back: an empty body is an empty array, any other
      is split on commas and each piece parsed. */
  function ParseBody(body: string): Option<seq<int>> {
    if body == "" then Some([]) else ParseAll(Split(body, ','))
  }

  lemma {:induction false} ParseAllDecimals(s: seq<int>)
    ensures ParseAll(Decimals(s)) == Some(s)
    decreases |s|
  {
    if s != [] {
      IntToStringRoundTrip(s[0]);
      assert Decimals(s)[1..] == Decimals(s[1..]);
      ParseAllDecimals(s[1..]);
      assert s == [s[0]] + s[1..];
    }
  }

  /** Splitting a channel body on commas and parsing gives the channel back. */
  lemma ChannelBodyRoundTrip(s: seq<int>)
    ensures ParseBody(ChannelBody(s)) == Some(s)
  {
    ChannelBodyIsCommaJoin(s);
    if s != [] {
      var ds := Decimals(s);
      forall i | 0 <= i < |ds| ensures ',' !in ds[i] {
        DecimalTextHasNoDelimiter(ds[i]);
      }
      SplitJoin(ds, ',');
      ParseAllDecimals(s);
    }
  }

  // The fixed text of the template, cut at each spliced literal. Each piece
  // is the text that precedes one literal; the literal is followed by its
  // one-character terminator (`;` or `}`), which is not part of the piece.

  const FlagPrefix: string :=
    "\n#include \"draw_image.hpp\"\n\nnamespace CTRPluginFramework\n{\n\tvoid draw_image(void) {\n\t\tbool draw_bottom_screen = "
  const XPrefix: string :=
    "\n\t\tconst Screen &scr = draw_bottom_screen ? OSD::GetBottomScreen() : OSD::GetTopScreen();\n\n\t\tint x = "
  const YPrefix: string := "\n\t\tint y = "
  const WidthPrefix: string := "\n\t\tint width = "
  const HeightPrefix: string := "\n\t\tint height = "
  const RedPrefix: string := "\n\n\t\tu8 r[] = {"
  const GreenPrefix: string := ";\n\t\tu8 g[] = {"
  const BluePrefix: string := ";\n\t\tu8 b[] = {"
  const Trailer: string :=
    ";\n\n\t\tint nap = 0;\n\n\t\tfor (int yy = 0; yy < height; yy++) {\n\t\t\tfor (int xx = 0; xx < width; xx++) {\n\t\t\t\tscr.DrawPixel(xx + x, yy + y, Color(r[nap], g[nap], b[nap], 255));\n\t\t\t\tnap++;\n\t\t\t}\n\t\t}\n\t}\n}\n"

  /** One spliced literal: the fixed text before it, the literal, its
      terminator, then the rest of the text. */
  function Field(prefix: string, literal: string, terminator: char, rest: string): string {
    prefix + literal + [terminator] + rest
  }

  /** `generate_code(x, y, width, height, is_bottom, (r, g, b))`. */
  function GenerateCode(x: int, y: int, width: int, height: int, isBottom: bool,
                        channels: (seq<int>, seq<int>, seq<int>)): string
  {
    Field(FlagPrefix, BoolLiteral(isBottom), ';',
    Field(XPrefix, IntToString(x), ';',
    Field(YPrefix, IntToString(y), ';',
    Field(WidthPrefix, IntToString(width), ';',
    Field(HeightPrefix, IntToString(height), ';',
    ChannelArrays(channels))))))
  }

  /** The three array definitions and the drawing loop after them. */
  function ChannelArrays(channels: (seq<int>, seq<int>, seq<int>)): string {
    Field(RedPrefix, ChannelBody(channels.0), '}',
    Field(GreenPrefix, ChannelBody(channels.1), '}',
    Field(BluePrefix, ChannelBody(channels.2), '}',
    Trailer)))
  }

  /** Everything the emitted source encodes. */
  datatype Artifact = Artifact(isBottom: bool, x: int, y: int, width: int, height: int,
                               red: seq<int>, green: seq<int>, blue: seq<int>)

  function ParseBool(s: string): Option<bool> {
    if s == "true" then Some(true) else if s == "false" then Some(false) else None
  }

  /** Drops `prefix` from the front of `s`, or fails. */
  function Expect(s: string, prefix: string): Option<string> {
    if |prefix| <= |s| && s[..|prefix|] == prefix then Some(s[|prefix|..]) else None
  }

  /** Splits `s` at the first `terminator`, dropping it, or fails. */
  function TakeUntil(s: string, terminator: char): Option<(string, string)> {
    if s == [] then None
    else if s[0] == terminator then Some(("", s[1..]))
    else
      var r :- TakeUntil(s[1..], terminator);
      Some(([s[0]] + r.0, r.1))
  }

  /** Reads one field: the fixed prefix, then the literal up to its terminator. */
  function ReadField(s: string, prefix: string, terminator: char): Option<(string, string)> {
    var rest :- Expect(s, prefix);
    TakeUntil(rest, terminator)
  }

  /** Reads an integer field. */
  function ReadInt(s: string, prefix: string): Option<(int, string)> {
    var f :- ReadField(s, prefix, ';');
    var n :- ParseInt(f.0);
    Some((n, f.1))
  }

  /** Reads a channel array field. */
  function ReadChannel(s: string, prefix: string): Option<(seq<int>, string)> {
    var f :- ReadField(s, prefix, '}');
    var values :- ParseBody(f.0);
    Some((values, f.1))
  }

  /** Reads the literals back out of emitted text; fails on any other text. */
  function ReadArtifact(text: string): Option<Artifact> {
    var f :- ReadField(text, FlagPrefix, ';');
    var isBottom :- ParseBool(f.0);
    var x :- ReadInt(f.1, XPrefix);
    var y :- ReadInt(x.1, YPrefix);
    var width :- ReadInt(y.1, WidthPrefix);
    var height :- ReadInt(width.1, HeightPrefix);
    var c :- ReadChannelArrays(height.1);
    Some(Artifact(isBottom, x.0, y.0, width.0, height.0, c.0, c.1, c.2))
  }

  /** Reads the three arrays, which must be followed by the fixed loop text. */
  function ReadChannelArrays(s: string): Option<(seq<int>, seq<int>, seq<int>)> {
    var red :- ReadChannel(s, RedPrefix);
    var green :- ReadChannel(red.1, GreenPrefix);
    var blue :- ReadChannel(green.1, BluePrefix);
    if blue.1 == Trailer then Some((red.0, green.0, blue.0)) else None
  }

  lemma {:induction false} TakeUntilLiteral(literal: string, terminator: char, rest: string)
    requires terminator !in literal
    ensures TakeUntil(literal + [terminator] + rest, terminator) == Some((literal, rest))
    decreases |literal|
  {
    var s := literal + [terminator] + rest;
    if literal == [] {
      assert s == [terminator] + rest;
    } else {
      assert s[1..] == literal[1..] + [terminator] + rest;
      TakeUntilLiteral(literal[1..], terminator, rest);
      assert [literal[0]] + literal[1..] == literal;
    }
  }

  lemma ReadFieldOfField(prefix: string, literal: string, terminator: char, rest: string)
    requires terminator !in literal
    ensures ReadField(Field(prefix, literal, terminator, rest), prefix, terminator) == Some((literal, rest))
  {
    var s := Field(prefix, literal, terminator, rest);
    assert s[..|prefix|] == prefix;
    assert s[|prefix|..] == literal + [terminator] + rest;
    TakeUntilLiteral(literal, terminator, rest);
  }

  lemma ReadIntOfField(prefix: string, n: int, rest: string)
    ensures ReadInt(Field(prefix, IntToString(n), ';', rest), prefix) == Some((n, rest))
  {
    DecimalTextHasNoDelimiter(IntToString(n));
    IntToStringRoundTrip(n);
    ReadFieldOfField(prefix, IntToString(n), ';', rest);
  }

  lemma ReadChannelOfField(prefix: string, values: seq<int>, rest: string)
    ensures ReadChannel(Field(prefix, ChannelBody(values), '}', rest), prefix) == Some((values, rest))
  {
    ChannelBodyIsCommaJoin(values);
    ChannelBodyRoundTrip(values);
    ReadFieldOfField(prefix, ChannelBody(values), '}', rest);
  }

  /** The emitted source encodes exactly its inputs: reading it back gives
      the screen flag (`true` exactly for the bottom screen), `x`, `y`,
      `width`, `height` and the three channels, in the order emitted. */
  lemma ReadArtifactRoundTrip(x: int, y: int, width: int, height: int, isBottom: bool,
                              channels: (seq<int>, seq<int>, seq<int>))
    ensures ReadArtifact(GenerateCode(x, y, width, height, isBottom, channels))
         == Some(Artifact(isBottom, x, y, width, height, channels.0, channels.1, channels.2))
  {
    var tr := ChannelArrays(channels);
    var th := Field(HeightPrefix, IntToString(height), ';', tr);
    var tw := Field(WidthPrefix, IntToString(width), ';', th);
    var ty := Field(YPrefix, IntToString(y), ';', tw);
    var tx := Field(XPrefix, IntToString(x), ';', ty);
    ReadFieldOfField(FlagPrefix, BoolLiteral(isBottom), ';', tx);
    ReadIntOfField(XPrefix, x, ty);
    ReadIntOfField(YPrefix, y, tw);
    ReadIntOfField(WidthPrefix, width, th);
    ReadIntOfField(HeightPrefix, height, tr);
    ReadChannelArraysRoundTrip(channels);
  }

  lemma ReadChannelArraysRoundTrip(channels: (seq<int>, seq<int>, seq<int>))
    ensures ReadChannelArrays(ChannelArrays(channels)) == Some(channels)
  {
    var (r, g, b) := channels;
    var tb := Field(BluePrefix, ChannelBody(b), '}', Trailer);
    var tg := Field(GreenPrefix, ChannelBody(g), '}', tb);
    ReadChannelOfField(RedPrefix, r, tg);
    ReadChannelOfField(GreenPrefix, g, tb);
    ReadChannelOfField(BluePrefix, b, Trailer);
  }

  /** Different inputs never produce the same source text. */
  lemma GenerateCodeInjective(x: int, y: int, width: int, height: int, isBottom: bool,
                              channels: (seq<int>, seq<int>, seq<int>),
                              x': int, y': int, width': int, height': int, isBottom': bool,
                              channels': (seq<int>, seq<int>, seq<int>))
    requires GenerateCode(x, y, width, height, isBottom, channels)
          == GenerateCode(x', y', width', height', isBottom', channels')
    ensures x == x' && y == y' && width == width' && height == height'
    ensures isBottom == isBottom' && channels == channels'
  {
    ReadArtifactRoundTrip(x, y, width, height, isBottom, channels);
    ReadArtifactRoundTrip(x', y', width', height', isBottom', channels');
  }
}
