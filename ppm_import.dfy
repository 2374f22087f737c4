/** The plain-text PPM importer (`from_ppm` in util/import.rs): the whole file
    is split into whitespace-separated tokens; the type and the maximum colour
    value are skipped, width and height are read, and the remaining tokens are
    taken three at a time as RGB triples filling a black width × height
    surface in row-major order. */
module PpmImport {
  import opened Results
  import opened Text

  newtype byte = x: int | 0 <= x < 256

  datatype Color = Color(r: byte, g: byte, b: byte)

  function Black(): Color {
    Color(0, 0, 0)
  }

  /** The image buffer: `width` columns and `height` rows of colours. */
  class Surface {
    const width: nat
    const height: nat
    const pixels: array2<Color>

    ghost predicate Valid() {
      pixels.Length0 == width && pixels.Length1 == height
    }

    /** `Surface::new(width, height, background)`. */
    constructor (width: nat, height: nat, background: Color)
      ensures Valid() && this.width == width && this.height == height && fresh(pixels)
      ensures forall x, y :: 0 <= x < width && 0 <= y < height ==> pixels[x, y] == background
    {
      this.width := width;
      this.height := height;
      pixels := new Color[width, height]((x, y) => background);
    }

    /** `*surface.get_mut(x, y) = color`: one pixel changes, no other does. */
    method Set(x: nat, y: nat, color: Color)
      requires Valid() && x < width && y < height
      modifies pixels
      ensures pixels[x, y] == color
      ensures forall i, j :: 0 <= i < width && 0 <= j < height && (i != x || j != y) ==>
        pixels[i, j] == old(pixels[i, j])
    {
      pixels[x, y] := color;
    }
  }

  // ---------------------------------------------------------------------------
  // Tokens

  /** `uint_from_string`: an unsigned decimal integer; anything else panics. */
  function UintFromString(s: string): Option<nat> {
    ParseUsize(s)
  }

  /** A channel or size token is accepted exactly when, after an optional
      `+`, it is a non-empty run of digits whose value fits in 64 bits; it
      is then that value. */
  lemma UintFromStringSpec(s: string)
    ensures UintFromString(s).Some? <==>
      var d := UnsignedDigits(s); d != [] && AllDigits(d) && DigitsValue(d) <= USIZE_MAX
    ensures UintFromString(s).Some? ==> UintFromString(s).value == DigitsValue(UnsignedDigits(s))
  {
    ParseUsizeSpec(s);
  }

  /** The decimal spelling of any 64-bit value reads back as itself. */
  lemma UintFromStringRoundTrip(n: nat)
    requires n <= USIZE_MAX
    ensures UintFromString(ToDecimal(n)) == Some(n)
  {
    DecimalRoundTrip(n);
  }

  /** `n as u8`: the low 8 bits. */
  function AsU8(n: nat): byte {
    (n % 256) as byte
  }

  /** A channel keeps values below 256 and wraps larger ones modulo 256. */
  lemma AsU8Wraps(n: nat)
    ensures n < 256 ==> AsU8(n) as int == n
    ensures AsU8(n + 256) == AsU8(n)
  {
  }

  /** Chunk `i` of the pixel tokens, as `chunks(3)` yields it: three tokens,
      or fewer for the last chunk. */
  function Chunk(body: seq<string>, i: nat): seq<string>
    requires 3 * i < |body|
  {
    body[3 * i .. if 3 * i + 3 <= |body| then 3 * i + 3 else |body|]
  }

  /** How many chunks `chunks(3)` yields. */
  function NumChunks(body: seq<string>): nat {
    (|body| + 2) / 3
  }

  /** The colour of a chunk: each of its three tokens as an unsigned integer
      cut to 8 bits; None when the chunk is short (indexing it panics) or a
      token is not a number. */
  function TripleColor(chunk: seq<string>): Option<Color> {
    if |chunk| < 3 then None
    else
      var r, g, b := UintFromString(chunk[0]), UintFromString(chunk[1]), UintFromString(chunk[2]);
      if r.Some? && g.Some? && b.Some? then Some(Color(AsU8(r.value), AsU8(g.value), AsU8(b.value))) else None
  }

  /** The colour of chunk `i`, walking the tokens three at a time as
      `chunks(3)` does; None when the chunk is short or missing, or a token
      is not a number. */
  function ChunkColor(body: seq<string>, i: nat): Option<Color>
    decreases i
  {
    if |body| < 3 then None
    else if i == 0 then TripleColor(body[..3])
    else ChunkColor(body[3..], i - 1)
  }

  /** Chunk i is tokens 3i, 3i+1 and 3i+2. */
  lemma {:induction false} ChunkColorAt(body: seq<string>, i: nat)
    ensures ChunkColor(body, i) == if 3 * i + 3 <= |body| then TripleColor(body[3 * i .. 3 * i + 3]) else None
    decreases i
  {
    if |body| >= 3 && i > 0 {
      ChunkColorAt(body[3..], i - 1);
      if 3 * i + 3 <= |body| {
        assert body[3..][3 * (i - 1) .. 3 * (i - 1) + 3] == body[3 * i .. 3 * i + 3];
      }
    }
  }

  /** Chunk i, short or not, decodes as its tokens do. */
  lemma ChunkIsTriple(body: seq<string>, i: nat)
    requires 3 * i < |body|
    ensures ChunkColor(body, i) == TripleColor(Chunk(body, i))
  {
    ChunkColorAt(body, i);
  }

  /** What a chunk decodes to, spelled out: a short chunk fails, and a full one
      is its three numbers' low bytes. */
  lemma ChunkColorSpec(body: seq<string>, i: nat)
    requires 3 * i < |body|
    ensures var c := Chunk(body, i);
      ChunkColor(body, i).Some? <==>
        |c| == 3 && UintFromString(c[0]).Some? && UintFromString(c[1]).Some? && UintFromString(c[2]).Some?
    ensures ChunkColor(body, i).Some? ==>
      var c := Chunk(body, i);
      ChunkColor(body, i).value ==
        Color(AsU8(UintFromString(c[0]).value), AsU8(UintFromString(c[1]).value), AsU8(UintFromString(c[2]).value))
  {
    ChunkIsTriple(body, i);
  }

  // ---------------------------------------------------------------------------
  // Header

  datatype Header = Header(width: nat, height: nat, body: seq<string>)

  /** The header: the first token (the PPM type) is dropped unread, the next
      two are width and height, the fourth (the maximum colour value) is
      dropped unread; the rest are the pixel tokens. A missing or non-numeric
      width or height panics. */
  function ParseHeader(tokens: seq<string>): Option<Header> {
    var afterType := if |tokens| > 0 then tokens[1..] else tokens;
    if |afterType| == 0 then None
    else match UintFromString(afterType[0])
      case None => None
      case Some(width) =>
        var afterWidth := afterType[1..];
        if |afterWidth| == 0 then None
        else match UintFromString(afterWidth[0])
          case None => None
          case Some(height) =>
            var afterHeight := afterWidth[1..];
            Some(Header(width, height, if |afterHeight| > 0 then afterHeight[1..] else afterHeight))
  }

  /** The header parses exactly when there are at least three tokens and the
      second and third are numbers; it then yields those numbers as width
      and height, and the data after the fourth token (the maximum value,
      which is discarded together with the type). */
  lemma HeaderSpec(tokens: seq<string>)
    ensures ParseHeader(tokens).Some? <==>
      |tokens| >= 3 && UintFromString(tokens[1]).Some? && UintFromString(tokens[2]).Some?
    ensures ParseHeader(tokens).Some? ==>
      ParseHeader(tokens).value ==
        Header(UintFromString(tokens[1]).value, UintFromString(tokens[2]).value,
               if |tokens| > 3 then tokens[4..] else [])
  {
    if |tokens| >= 3 {
      assert tokens[1..][0] == tokens[1];
      assert tokens[1..][1..][0] == tokens[2];
      if |tokens| > 3 {
        assert tokens[1..][1..][1..][1..] == tokens[4..];
      }
    }
  }

  /** A file whose tokens are type, width, height, maximum value and pixel
      data yields that width, height and data, whatever the type and maximum
      are. */
  lemma HeaderRoundTrip(kind: string, width: nat, height: nat, maxValue: string, body: seq<string>)
    requires width <= USIZE_MAX && height <= USIZE_MAX
    ensures ParseHeader([kind, ToDecimal(width), ToDecimal(height), maxValue] + body) == Some(Header(width, height, body))
  {
    var tokens := [kind, ToDecimal(width), ToDecimal(height), maxValue] + body;
    UintFromStringRoundTrip(width);
    UintFromStringRoundTrip(height);
    HeaderSpec(tokens);
    assert tokens[4..] == body;
  }

  /** Sample headers: a non-numeric width panics; `+4` and `007` read as 4
      and 7; three tokens give an empty body. */
  lemma {:induction false} HeaderExamples(body: seq<string>)
    ensures ParseHeader(["P3", "x", "2", "255"] + body) == None
    ensures ParseHeader(["P3", "+4", "007", "255"] + body) == Some(Header(4, 7, body))
    ensures ParseHeader(["P3", "4", "7"]) == Some(Header(4, 7, []))
  {
    var bad := ["P3", "x", "2", "255"] + body;
    assert bad[1] == "x";
    assert UintFromString("x") == None;
    HeaderSpec(bad);
    var good := ["P3", "+4", "007", "255"] + body;
    assert good[1] == "+4" && good[2] == "007" && good[4..] == body;
    assert UintFromString("+4") == Some(4);
    assert "007"[..2] == "00" && "00"[..1] == "0";
    assert ParseDigits("00") == Some(0);
    assert UintFromString("007") == Some(7);
    HeaderSpec(good);
    assert UintFromString("4") == Some(4);
    assert UintFromString("7") == Some(7);
    HeaderSpec(["P3", "4", "7"]);
  }

  // ---------------------------------------------------------------------------
  // Row-major placement

  /** Chunk `i` goes to column `i % width`, row `i / width`; `from_ppm` stops at
      the first chunk whose row is `height` or more. */
  predicate Placed(i: nat, width: nat, height: nat) {
    width > 0 && i / width < height
  }

  /** The pixel data is acceptable: every chunk that is placed decodes, and
      there is no chunk at all when the width is 0 (`i % 0` would panic). */
  predicate PixelsOk(body: seq<string>, width: nat, height: nat) {
    (width == 0 ==> NumChunks(body) == 0) &&
    forall i :: 0 <= i < NumChunks(body) && Placed(i, width, height) ==> ChunkColor(body, i).Some?
  }

  /** The row-major index of column x, row y. */
  function PixelIndex(width: nat, x: nat, y: nat): nat {
    y * width + x
  }

  /** The colour `from_ppm` leaves at column x, row y: that of chunk
      `y * width + x` when there is one, black otherwise. */
  function ExpectedPixel(body: seq<string>, width: nat, x: nat, y: nat): Color {
    var i := PixelIndex(width, x, y);
    if i < NumChunks(body) && ChunkColor(body, i).Some? then ChunkColor(body, i).value else Black()
  }

  /** `from_ppm` succeeds on this text. */
  predicate PpmAccepts(text: string) {
    var hd := ParseHeader(Words(text));
    hd.Some? && PixelsOk(hd.value.body, hd.value.width, hd.value.height)
  }

  lemma {:induction false} MulMono(a: nat, b: nat, w: nat)
    requires a <= b
    ensures a * w <= b * w
  {
    var d := b - a;
    assert b * w == a * w + d * w;
  }

  /** Row-major indices: `y * width + x` is the only index with column x and row y. */
  lemma {:induction false} RowMajor(i: nat, x: nat, y: nat, width: nat)
    requires x < width
    ensures i == PixelIndex(width, x, y) <==> (i % width == x && i / width == y)
  {
    var q, r := i / width, i % width;
    assert i == q * width + r;
    if i == y * width + x {
      if q > y {
        MulMono(y + 1, q, width);
        assert false;
      } else if q < y {
        MulMono(q + 1, y, width);
        assert false;
      }
    }
  }

  /** Rows never decrease along the chunks: a chunk before a placed one is placed. */
  lemma {:induction false} PlacedMono(i: nat, j: nat, width: nat, height: nat)
    requires i <= j && Placed(j, width, height)
    ensures Placed(i, width, height)
  {
    var qi, qj := i / width, j / width;
    assert i == qi * width + i % width;
    assert j == qj * width + j % width;
    if qi > qj {
      MulMono(qj + 1, qi, width);
      assert false;
    }
  }

  /** The chunk of every pixel of the surface is placed. */
  lemma PixelPlaced(x: nat, y: nat, width: nat, height: nat)
    requires x < width && y < height
    ensures Placed(PixelIndex(width, x, y), width, height)
  {
    RowMajor(PixelIndex(width, x, y), x, y, width);
  }

  /** A chunk is placed exactly when its index is below width × height. */
  lemma {:induction false} PlacedBelowArea(i: nat, width: nat, height: nat)
    requires width > 0
    ensures Placed(i, width, height) <==> i < width * height
  {
    var q, r := i / width, i % width;
    assert i == q * width + r;
    if q < height {
      MulMono(q + 1, height, width);
    } else {
      MulMono(height, q, width);
    }
  }

  /** Every pixel of the surface has an index below width × height. */
  lemma PixelIndexBelowArea(x: nat, y: nat, width: nat, height: nat)
    requires x < width && y < height
    ensures PixelIndex(width, x, y) < width * height
  {
    MulMono(y + 1, height, width);
  }

  /** Every pixel whose triple exists holds that triple's colour, and the
      triple decodes: together with RowMajor, the i-th RGB triple lands on
      column `i % width`, row `i / width`. */
  lemma ChunkPlacement(body: seq<string>, width: nat, height: nat, x: nat, y: nat)
    requires x < width && y < height && PixelIndex(width, x, y) < NumChunks(body)
    requires PixelsOk(body, width, height)
    ensures ChunkColor(body, PixelIndex(width, x, y)).Some?
    ensures ExpectedPixel(body, width, x, y) == ChunkColor(body, PixelIndex(width, x, y)).value
  {
    PixelPlaced(x, y, width, height);
  }

  /** Pixels past the last triple stay black. */
  lemma UnwrittenStayBlack(body: seq<string>, width: nat, x: nat, y: nat)
    requires PixelIndex(width, x, y) >= NumChunks(body)
    ensures ExpectedPixel(body, width, x, y) == Black()
  {
  }

  /** Only the first width × height triples matter: tokens after them are
      never read, so they can neither fail the import nor change a pixel. */
  lemma {:induction false} TrailingTokensIgnored(body: seq<string>, extra: seq<string>, width: nat, height: nat)
    requires width > 0 && |body| == 3 * (width * height)
    ensures PixelsOk(body + extra, width, height) <==> PixelsOk(body, width, height)
    ensures forall x, y :: 0 <= x < width && 0 <= y < height ==>
      ExpectedPixel(body + extra, width, x, y) == ExpectedPixel(body, width, x, y)
  {
    var area := width * height;
    assert NumChunks(body) == area;
    forall i | 0 <= i < area
      ensures ChunkColor(body + extra, i) == ChunkColor(body, i)
    {
      ChunkColorAt(body + extra, i);
      ChunkColorAt(body, i);
      MulMono(i + 1, area, 3);
      assert (body + extra)[3 * i .. 3 * i + 3] == body[3 * i .. 3 * i + 3];
    }
    forall i | 0 <= i
      ensures Placed(i, width, height) <==> i < area
    {
      PlacedBelowArea(i, width, height);
    }
    forall x, y | 0 <= x < width && 0 <= y < height
      ensures ExpectedPixel(body + extra, width, x, y) == ExpectedPixel(body, width, x, y)
    {
      PixelIndexBelowArea(x, y, width, height);
    }
  }

  // ---------------------------------------------------------------------------
  // The importer

  /** The pixel loop of `from_ppm`: chunk i is written to column `i % width`,
      row `i / width` of a black surface until the row reaches the height;
      false when it panics. */
  method FillPixels(surface: Surface, body: seq<string>) returns (ok: bool)
    requires surface.Valid()
    requires forall x, y :: 0 <= x < surface.width && 0 <= y < surface.height ==> surface.pixels[x, y] == Black()
    modifies surface.pixels
    ensures ok <==> PixelsOk(body, surface.width, surface.height)
    ensures ok ==> forall x, y :: 0 <= x < surface.width && 0 <= y < surface.height ==>
      surface.pixels[x, y] == ExpectedPixel(body, surface.width, x, y)
  {
    var w, h := surface.width, surface.height;
    var n := NumChunks(body);
    if w == 0 {
      return n == 0;  // the first chunk's `i % width` divides by zero
    }
    var i := 0;
    while i < n
      invariant i <= n
      invariant i == 0 || Placed(i - 1, w, h)
      invariant forall j :: 0 <= j < i ==> ChunkColor(body, j).Some?
      invariant forall x, y :: 0 <= x < w && 0 <= y < h ==> surface.pixels[x, y] == PartialPixel(body, w, i, x, y)
    {
      var x, y := i % w, i / w;
      if x >= w || y >= h {
        break;
      }
      var color := ChunkColor(body, i);
      assert Placed(i, w, h);
      if color.None? {
        FailsAt(body, w, h, i);
        return false;
      }
      WriteChunk(surface, body, i, x, y, color.value);
      i := i + 1;
    }
    DoneChunks(body, w, h, i);
    ok := true;
  }

  /** A placed triple that does not decode makes the pixel data unacceptable. */
  lemma FailsAt(body: seq<string>, width: nat, height: nat, i: nat)
    requires i < NumChunks(body) && Placed(i, width, height) && ChunkColor(body, i).None?
    ensures !PixelsOk(body, width, height)
  {
  }

  /** One iteration's write: chunk i's colour goes to its pixel, which
      extends the picture of chunks 0 to i-1 to chunks 0 to i. */
  method WriteChunk(surface: Surface, body: seq<string>, i: nat, x: nat, y: nat, color: Color)
    requires surface.Valid() && surface.width > 0
    requires x == i % surface.width && y == i / surface.width && y < surface.height
    requires i < NumChunks(body) && ChunkColor(body, i) == Some(color)
    requires forall x', y' :: 0 <= x' < surface.width && 0 <= y' < surface.height ==>
      surface.pixels[x', y'] == PartialPixel(body, surface.width, i, x', y')
    modifies surface.pixels
    ensures forall x', y' :: 0 <= x' < surface.width && 0 <= y' < surface.height ==>
      surface.pixels[x', y'] == PartialPixel(body, surface.width, i + 1, x', y')
  {
    surface.Set(x, y, color);
    forall x', y' | 0 <= x' < surface.width && 0 <= y' < surface.height
      ensures surface.pixels[x', y'] == PartialPixel(body, surface.width, i + 1, x', y')
    {
      PartialPixelStep(body, surface.width, i, x', y');
    }
  }

  /** The pixel at column x, row y once the loop has written chunks 0 to i-1. */
  function PartialPixel(body: seq<string>, width: nat, i: nat, x: nat, y: nat): Color {
    if PixelIndex(width, x, y) < i then ExpectedPixel(body, width, x, y) else Black()
  }

  /** Writing chunk i changes the partial picture at chunk i's pixel only. */
  lemma PartialPixelStep(body: seq<string>, width: nat, i: nat, x: nat, y: nat)
    requires x < width && i < NumChunks(body) && ChunkColor(body, i).Some?
    ensures PartialPixel(body, width, i + 1, x, y) ==
      if x == i % width && y == i / width then ChunkColor(body, i).value else PartialPixel(body, width, i, x, y)
  {
    RowMajor(i, x, y, width);
  }

  /** When the pixel loop stops at chunk i without failing, the chunks before
      i are exactly those it had to place, so the data is acceptable, and
      every pixel's chunk is before i, so the picture is complete. */
  lemma DoneChunks(body: seq<string>, width: nat, height: nat, i: nat)
    requires i <= NumChunks(body)
    requires i == NumChunks(body) || !Placed(i, width, height)
    requires i == 0 || Placed(i - 1, width, height)
    requires width == 0 ==> NumChunks(body) == 0
    requires forall j :: 0 <= j < i ==> ChunkColor(body, j).Some?
    ensures PixelsOk(body, width, height)
    ensures forall x, y :: 0 <= x < width && 0 <= y < height ==>
      PartialPixel(body, width, i, x, y) == ExpectedPixel(body, width, x, y)
  {
    forall j | i <= j < NumChunks(body)
      ensures !Placed(j, width, height)
    {
      if Placed(j, width, height) {
        PlacedMono(i, j, width, height);
      }
    }
    forall x, y | 0 <= x < width && 0 <= y < height
      ensures PixelIndex(width, x, y) < i <==> PixelIndex(width, x, y) < NumChunks(body)
    {
      PixelPlaced(x, y, width, height);
      if i < NumChunks(body) && i <= PixelIndex(width, x, y) {
        PlacedMono(i, PixelIndex(width, x, y), width, height);
      }
    }
  }

  /** `from_ppm` on the text of a file. */
  method FromPpm(text: string) returns (r: Option<Surface>)
    ensures r.Some? <==> PpmAccepts(text)
    ensures r.Some? ==>
      var hd := ParseHeader(Words(text)).value;
      var s := r.value;
      fresh(s.pixels) && s.Valid() && s.width == hd.width && s.height == hd.height &&
      forall x, y :: 0 <= x < s.width && 0 <= y < s.height ==> s.pixels[x, y] == ExpectedPixel(hd.body, hd.width, x, y)
  {
    var tokens := Words(text);
    ghost var hd := ParseHeader(tokens);
    if |tokens| > 0 {
      tokens := tokens[1..];  // PPM type
    }
    if |tokens| == 0 {
      return None;
    }
    var width := UintFromString(tokens[0]);
    tokens := tokens[1..];
    if width.None? {
      return None;
    }
    if |tokens| == 0 {
      return None;
    }
    var height := UintFromString(tokens[0]);
    tokens := tokens[1..];
    if height.None? {
      return None;
    }
    if |tokens| > 0 {
      tokens := tokens[1..];  // maximum colour value
    }
    var w, h := width.value, height.value;
    assert hd == Some(Header(w, h, tokens));

    var surface := new Surface(w, h, Black());
    var ok := FillPixels(surface, tokens);
    if !ok {
      return None;
    }
    r := Some(surface);
  }
}
