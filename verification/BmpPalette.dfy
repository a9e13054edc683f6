/** Files byte by byte. */
module BmpPalette {
  import opened Bytes
  import opened Bmp

  /** Red, green and blue. */
  datatype Rgb = Rgb(r: Byte, g: Byte, b: Byte) {
    predicate Grey() {
      r == g == b
    }

    function Bands(): seq<Byte> {
      [r, g, b]
    }
  }

  /** The number in k bytes, the low byte first. */
  function Number(f: seq<Byte>, p: nat, k: nat): nat
    requires p + k <= |f|
    decreases k
  {
    if k == 0 then 0 else f[p] as nat + 256 * Number(f, p + 1, k - 1)
  }

  /** The fields of a Windows or a new OS/2 header of the given size: where the pixels start, the size, one
      plane, the bits a pixel, no compression and the length of the colour map. */
  predicate Headed(f: seq<Byte>, w: nat, h: nat, size: nat, bits: nat, start: nat, used: nat) {
    && |f| >= 54
    && Number(f, 10, 4) == start && Number(f, 14, 4) == size && Number(f, 18, 4) == w && Number(f, 22, 4) == h
    && Number(f, 26, 2) == 1 && Number(f, 28, 2) == bits && Number(f, 30, 4) == 0 && Number(f, 46, 4) == used
  }

  /** The length of a row of n bytes, filled up to a multiple of four. */
  function Pitch(n: nat): nat {
    (n + 3) / 4 * 4
  }

  /** Rows are stored from the last one up. */
  function At(h: nat, pitch: nat, start: nat, i: nat, off: nat): int {
    start + (h - 1 - i) * pitch + off
  }

  predicate Entry(f: seq<Byte>, p: int, c: Rgb) {
    0 <= p && p + 3 <= |f| && f[p] == c.b && f[p + 1] == c.g && f[p + 2] == c.r
  }

  predicate IndexAt(f: seq<Byte>, p: int, c: Byte) {
    0 <= p < |f| && f[p] == c
  }

  /** A file of indices into a map of 256 colours, entries and pixels at the places the format gives them. */
  ghost predicate Stores8(f: seq<Byte>, w: nat, h: nat, size: nat, start: nat, colour: Byte -> Rgb,
                          index: (nat, nat) -> Byte) {
    && w < WORD / 2 && h < WORD / 2 && size in {40, 64} && 14 + size + 1024 <= start < WORD / 2
    && (Headed(f, w, h, size, 8, start, 256) || Headed(f, w, h, size, 8, start, 0))
    && (forall c: Byte :: Entry(f, 14 + size + 4 * c as int, colour(c)))
    && start + h * Pitch(w) <= |f|
    && forall i: nat, j: nat :: i < h && j < w ==> IndexAt(f, At(h, Pitch(w), start, i, j), index(i, j))
  }

  /** The fields of an old OS/2 header, which are shorter and fewer. */
  predicate OldHeaded(f: seq<Byte>, w: nat, h: nat, bits: nat) {
    && |f| >= 54
    && Number(f, 14, 4) == 12 && Number(f, 18, 2) == w && Number(f, 20, 2) == h
    && Number(f, 22, 2) == 1 && Number(f, 24, 2) == bits
  }

  /** An old file with a map, of three bytes a colour; the pixels follow at once. */
  ghost predicate StoresOld8(f: seq<Byte>, w: nat, h: nat, colour: Byte -> Rgb, index: (nat, nat) -> Byte) {
    && OldHeaded(f, w, h, 8)
    && (forall c: Byte :: Entry(f, 26 + 3 * c as int, colour(c)))
    && 26 + 768 + h * Pitch(w) <= |f|
    && forall i: nat, j: nat :: i < h && j < w ==> IndexAt(f, At(h, Pitch(w), 26 + 768, i, j), index(i, j))
  }

  /** A file of colours: blue, green, red. */
  ghost predicate Stores24(f: seq<Byte>, w: nat, h: nat, size: nat, start: nat, pixel: (nat, nat) -> Rgb) {
    && w < WORD / 2 && h < WORD / 2 && size in {40, 64} && 14 + size <= start < WORD / 2
    && Headed(f, w, h, size, 24, start, 0)
    && start + h * Pitch(3 * w) <= |f|
    && forall i: nat, j: nat :: i < h && j < w ==> Entry(f, At(h, Pitch(3 * w), start, i, 3 * j), pixel(i, j))
  }

  // ---------- The header ----------

  lemma Numbers(f: seq<Byte>, p: nat)
    ensures p + 4 <= |f| ==> GetInt(f, p) == Number(f, p, 4)
    ensures p + 2 <= |f| ==> GetShort(f, p) == Number(f, p, 2)
  {
    if p + 4 <= |f| {
      assert Number(f, p + 3, 1) == f[p + 3] as nat + 256 * Number(f, p + 4, 0);
      assert Number(f, p + 2, 2) == f[p + 2] as nat + 256 * Number(f, p + 3, 1);
      assert Number(f, p + 1, 3) == f[p + 1] as nat + 256 * Number(f, p + 2, 2);
    }
    if p + 2 <= |f| {
      assert Number(f, p + 1, 1) == f[p + 1] as nat + 256 * Number(f, p + 2, 0);
    }
  }

  lemma HeadedRead(f: seq<Byte>, w: nat, h: nat, size: nat, bits: nat, start: nat, used: nat)
    requires Headed(f, w, h, size, bits, start, used) && size in {40, 64} && w < WORD / 2 && h < WORD / 2
    ensures ReadHead(f) == Head(size, start, w, h, 1, bits, 0, used, 54)
  {
    hide GetInt, GetShort, Number;
    Numbers(f, 10);
    Numbers(f, 14);
    Numbers(f, 18);
    Numbers(f, 22);
    Numbers(f, 26);
    Numbers(f, 28);
    Numbers(f, 30);
    Numbers(f, 46);
  }

  lemma Layout(d: Head, start: nat, used: nat)
    requires d.biSize in {40, 64} && d.offBits == start && d.planes == 1 && d.comp == 0 && d.clrUsed == used
    requires d.end == 54
    requires start < WORD / 2 && d.bits in {8, 24} && used in {0, 256}
    ensures !Bogus(d) && MapStart(d) == 14 + d.biSize && EntryLen(d) == 4
    ensures MapLen(d) == if d.bits == 8 then 256 else 0
    ensures start >= MapStart(d) + 4 * MapLen(d) ==> DataStart(d) == start
  {
  }

  lemma RowPlace(h: nat, start: nat, n: nat, i: nat, off: nat)
    requires i < h && off <= n
    ensures RowAt(start, h, Pitch(n), i) + off == At(h, Pitch(n), start, i, off)
    ensures start <= At(h, Pitch(n), start, i, off) <= start + h * Pitch(n) - n + off
  {
    RowWithin(h, Pitch(n), h - 1 - i);
  }

  lemma Pitches(w: nat)
    ensures RowLen(w, 8) == Pitch(w) && RowLen(w, 24) == Pitch(3 * w)
  {
  }

  /** The kinds of file that are accepted: one plane, and 1, 4, 8 or 24 bits a pixel without compression, or 32
      bits with any code from 0 to 2. */
  lemma Accepted(d: Head)
    ensures !Bogus(d) <==>
            d.planes == 1 && if d.bits == 32 then d.comp <= 2 else d.bits in {1, 4, 8, 24} && d.comp == 0
  {
  }

  // ---------- Reading ----------

  /** Pixel (i, j) of a picture. */
  function Pixel(m: Image, i: nat, j: nat): seq<Byte> {
    Item(m.data, (i * m.w + j) * m.bands, m.bands)
  }

  /** A picture put together from its pixels. */
  lemma Pixels(h: nat, w: nat, bands: nat, rows: nat -> seq<Byte>, p: (nat, nat) -> seq<Byte>)
    requires forall i: nat :: i < h ==> RowIs(rows(i), w, bands, i, p)
    ensures var m := Image(w, h, bands, Gather(h, rows));
            && |m.data| == h * (w * bands) && forall i: nat, j: nat :: i < h && j < w ==> Pixel(m, i, j) == p(i, j)
  {
    hide RowIs, Pixel, Gather;
    var m := Image(w, h, bands, Gather(h, rows));
    forall i: nat | i < h
      ensures |rows(i)| == w * bands
    {
      RowPixel(rows(i), w, bands, i, p, 0);
    }
    GatherLength(h, rows, w * bands);
    forall i: nat, j: nat | i < h && j < w
      ensures Pixel(m, i, j) == p(i, j)
    {
      GatherAt(h, rows, w * bands, i);
      RowPixel(rows(i), w, bands, i, p, j);
      PixelIn(m, rows(i), i, j);
    }
  }

  lemma PixelIn(m: Image, row: seq<Byte>, i: nat, j: nat)
    requires var n := m.w * m.bands; 0 <= i * n <= i * n + n <= |m.data| && m.data[i * n..i * n + n] == row
    requires 0 <= j * m.bands <= j * m.bands + m.bands <= |row|
    ensures Pixel(m, i, j) == row[j * m.bands..j * m.bands + m.bands]
  {
    var n := m.w * m.bands;
    NestedSlice(m.data, i * n, n, j * m.bands, m.bands);
    assert (i * m.w + j) * m.bands == i * n + j * m.bands;
  }

  /** Row i's pixels side by side. */
  predicate RowIs(row: seq<Byte>, w: nat, bands: nat, i: nat, p: (nat, nat) -> seq<Byte>) {
    && row == Gather(w, (j: nat) => p(i, j))
    && forall j: nat :: j < w ==> |p(i, j)| == bands
  }

  lemma RowPixel(row: seq<Byte>, w: nat, bands: nat, i: nat, p: (nat, nat) -> seq<Byte>, j: nat)
    requires RowIs(row, w, bands, i, p)
    ensures |row| == w * bands
    ensures j < w ==> 0 <= j * bands && j * bands + bands <= |row| && row[j * bands..j * bands + bands] == p(i, j)
  {
    var f := (j: nat) => p(i, j);
    GatherLength(w, f, bands);
    if j < w {
      GatherAt(w, f, bands, j);
    }
  }

  /** All colours of the map are greys. */
  ghost predicate AllGrey(colour: Byte -> Rgb) {
    forall c: Byte :: colour(c).Grey()
  }

  /** What a map file holds: one band if all colours of the map are greys, else red, green and blue. */
  function Shown(colour: Byte -> Rgb, grey: bool, index: (nat, nat) -> Byte): (nat, nat) -> seq<Byte> {
    (i: nat, j: nat) => if grey then [colour(index(i, j)).r] else colour(index(i, j)).Bands()
  }

  lemma MapEntry(f: seq<Byte>, d: Head, colour: Byte -> Rgb, base: nat, len: nat, c: nat)
    requires MapFits(f, d) && MapStart(d) == base && EntryLen(d) == len && c < 256
    requires len * c >= 0 && Entry(f, base + len * c, colour(c as Byte))
    ensures Red(f, d, c) == colour(c as Byte).r && Green(f, d, c) == colour(c as Byte).g
    ensures Blue(f, d, c) == colour(c as Byte).b
  {
    hide MapStart, EntryLen;
  }

  /** What the reader makes of a map file whose head is d. */
  ghost predicate Shows(f: seq<Byte>, w: nat, h: nat, colour: Byte -> Rgb, index: (nat, nat) -> Byte) {
    && Decoded(f).Read?
    && var m := Decoded(f).image;
    && m.w == w && m.h == h && m.bands == (if AllGrey(colour) then 1 else 3)
    && |m.data| == h * (w * m.bands)
    && forall i: nat, j: nat :: i < h && j < w ==>
         Pixel(m, i, j) == if AllGrey(colour) then [colour(index(i, j)).r] else colour(index(i, j)).Bands()
  }

  lemma ReadMap(f: seq<Byte>, d: Head, w: nat, h: nat, start: nat, base: nat, len: nat, colour: Byte -> Rgb,
                index: (nat, nat) -> Byte)
    requires |f| >= 54 && d == ReadHead(f) && !Bogus(d) && d.bits == 8 && d.w == w && d.h == h && d.biSize < WORD &&
             d.offBits < WORD
    requires MapFits(f, d) && MapStart(d) == base && EntryLen(d) == len && DataStart(d) == start
    requires forall c: Byte :: len * c as int >= 0 && Entry(f, base + len * c as int, colour(c))
    requires start + h * Pitch(w) <= |f|
    requires forall i: nat, j: nat :: i < h && j < w ==> IndexAt(f, At(h, Pitch(w), start, i, j), index(i, j))
    ensures Shows(f, w, h, colour, index)
  {
    hide Gather, Entry, IndexAt, RowLen, DataStart, Bogus, Red, Green, Blue, RowAt, At, Pixel, ReadHead, MapRows;
    Pitches(w);
    GreyMap(f, d, colour, base, len);
    var grey := Grey(f, d);
    hide Grey, MapLen, EntryLen, MapStart, MapFits;
    forall i: nat | i < h
      ensures RowIs(MapRows(f, d, grey)(i), w, if grey then 1 else 3, i, Shown(colour, grey, index))
    {
      Row8(f, d, w, h, start, colour, index, grey, i);
    }
    Pixels(h, w, if grey then 1 else 3, MapRows(f, d, grey), Shown(colour, grey, index));
  }

  /** Reading a file with a map of 256 colours. */
  lemma Read8(f: seq<Byte>, w: nat, h: nat, size: nat, start: nat, colour: Byte -> Rgb, index: (nat, nat) -> Byte)
    requires Stores8(f, w, h, size, start, colour, index)
    ensures Shows(f, w, h, colour, index)
  {
    hide Headed, Entry, IndexAt, DataStart, Bogus, At, ReadHead, Shows;
    var used := if Headed(f, w, h, size, 8, start, 256) then 256 else 0;
    HeadedRead(f, w, h, size, 8, start, used);
    HeadedLong(f, w, h, size, 8, start, used);
    var d := ReadHead(f);
    Layout(d, start, used);
    ReadMap(f, d, w, h, start, 14 + size, 4, colour, index);
  }

  lemma ReadOld8(f: seq<Byte>, w: nat, h: nat, colour: Byte -> Rgb, index: (nat, nat) -> Byte)
    requires StoresOld8(f, w, h, colour, index)
    ensures Shows(f, w, h, colour, index)
  {
    hide Entry, IndexAt, DataStart, Bogus, At, ReadHead, Shows, GetInt, GetShort, Number;
    Numbers(f, 14);
    Numbers(f, 18);
    Numbers(f, 20);
    Numbers(f, 22);
    Numbers(f, 24);
    var d := ReadHead(f);
    OldHead(f);
    OldLayout(d);
    ReadMap(f, d, w, h, 26 + 768, 26, 3, colour, index);
  }

  lemma OldHead(f: seq<Byte>)
    requires |f| >= 54 && GetInt(f, 14) == 12
    ensures ReadHead(f) ==
            Head(12, GetInt(f, 10), GetShort(f, 18), GetShort(f, 20), GetShort(f, 22), GetShort(f, 24), BI_RGB, 0, 26)
  {
  }

  lemma OldLayout(d: Head)
    requires d.biSize == 12 && d.offBits < WORD && d.planes == 1 && d.bits == 8 && d.comp == 0 && d.clrUsed == 0
    requires d.end == 26
    ensures !Bogus(d) && MapStart(d) == 26 && EntryLen(d) == 3 && MapLen(d) == 256 && DataStart(d) == 26 + 768
  {
  }

  lemma HeadedLong(f: seq<Byte>, w: nat, h: nat, size: nat, bits: nat, start: nat, used: nat)
    requires Headed(f, w, h, size, bits, start, used)
    ensures |f| >= 54
  {
  }

  lemma GreyMap(f: seq<Byte>, d: Head, colour: Byte -> Rgb, base: nat, len: nat)
    requires MapFits(f, d) && MapStart(d) == base && EntryLen(d) == len
    requires forall c: Byte :: len * c as int >= 0 && Entry(f, base + len * c as int, colour(c))
    ensures Grey(f, d) <==> AllGrey(colour)
    ensures forall c: Byte :: Red(f, d, c as nat) == colour(c).r && Green(f, d, c as nat) == colour(c).g &&
                              Blue(f, d, c as nat) == colour(c).b
  {
    hide Red, Green, Blue, Entry, MapStart;
    forall c: Byte
      ensures Red(f, d, c as nat) == colour(c).r && Green(f, d, c as nat) == colour(c).g
      ensures Blue(f, d, c as nat) == colour(c).b
    {
      assert c as nat as Byte == c;
      MapEntry(f, d, colour, base, len, c as nat);
    }
    if AllGrey(colour) {
      forall c: nat | c < 256
        ensures Red(f, d, c) == Blue(f, d, c) && Red(f, d, c) == Green(f, d, c)
      {
        assert colour(c as Byte).Grey() && (c as Byte) as nat == c;
      }
    }
  }

  lemma Row8(f: seq<Byte>, d: Head, w: nat, h: nat, start: nat, colour: Byte -> Rgb, index: (nat, nat) -> Byte,
             grey: bool, i: nat)
    requires MapFits(f, d) && d.biSize < WORD && d.offBits < WORD && d.w == w && d.h == h && i < h
    requires DataStart(d) == start && RowLen(w, 8) == Pitch(w) && start + h * Pitch(w) <= |f|
    requires forall c: Byte :: Red(f, d, c as nat) == colour(c).r && Green(f, d, c as nat) == colour(c).g &&
                               Blue(f, d, c as nat) == colour(c).b
    requires forall j: nat :: j < w ==> IndexAt(f, At(h, Pitch(w), start, i, j), index(i, j))
    ensures RowIs(MapRows(f, d, grey)(i), w, if grey then 1 else 3, i, Shown(colour, grey, index))
  {
    hide Gather, RowLen, DataStart, Red, Green, Blue, RowAt, At;
    var p, show := RowAt(start, h, Pitch(w), i), Shown(colour, grey, index);
    forall j: nat | j < w
      ensures MapPixels(f, d, p, grey)(j) == show(i, j)
    {
      RowPlace(h, start, w, i, j);
      assert IndexAt(f, At(h, Pitch(w), start, i, j), index(i, j)) && p + j == At(h, Pitch(w), start, i, j);
      var c := index(i, j);
      assert p + j < |f| && f[p + j] == c;
      assert Red(f, d, c as nat) == colour(c).r && Green(f, d, c as nat) == colour(c).g;
      assert MapPixels(f, d, p, grey)(j) == PixelOf(f, d, grey, c);
    }
    GatherSame(w, MapPixels(f, d, p, grey), (j: nat) => show(i, j));
  }

  /** Reading a file of colours. */
  lemma Read24(f: seq<Byte>, w: nat, h: nat, size: nat, start: nat, pixel: (nat, nat) -> Rgb)
    requires Stores24(f, w, h, size, start, pixel)
    ensures Decoded(f).Read?
    ensures var m := Decoded(f).image;
            && m.w == w && m.h == h && m.bands == 3 && |m.data| == h * (w * 3)
            && forall i: nat, j: nat :: i < h && j < w ==> Pixel(m, i, j) == pixel(i, j).Bands()
  {
    hide Gather, Headed, Entry, RowLen, DataStart, Bogus, RowAt, At;
    HeadedRead(f, w, h, size, 24, start, 0);
    HeadedLong(f, w, h, size, 24, start, 0);
    var d := ReadHead(f);
    Layout(d, start, 0);
    Pitches(w);
    var show := (i: nat, j: nat) => pixel(i, j).Bands();
    forall i: nat | i < h
      ensures RowIs(TurnedRows(f, d)(i), w, 3, i, show)
    {
      Row24(f, d, w, h, start, pixel, show, i);
    }
    Pixels(h, w, 3, TurnedRows(f, d), show);
  }

  lemma Row24(f: seq<Byte>, d: Head, w: nat, h: nat, start: nat, pixel: (nat, nat) -> Rgb,
              show: (nat, nat) -> seq<Byte>, i: nat)
    requires d.biSize < WORD && d.offBits < WORD && d.w == w && d.h == h && i < h
    requires DataStart(d) == start && RowLen(w, 24) == Pitch(3 * w) && start + h * Pitch(3 * w) <= |f|
    requires forall j: nat :: j < w ==> Entry(f, At(h, Pitch(3 * w), start, i, 3 * j), pixel(i, j))
    requires forall i: nat, j: nat :: show(i, j) == pixel(i, j).Bands()
    ensures RowIs(TurnedRows(f, d)(i), w, 3, i, show)
  {
    hide Gather, RowLen, DataStart, RowAt, At;
    var p := RowAt(start, h, Pitch(3 * w), i);
    forall j: nat | j < w
      ensures Turned(f, p)(j) == show(i, j)
    {
      RowPlace(h, start, 3 * w, i, 3 * j);
    }
    GatherSame(w, Turned(f, p), (j: nat) => show(i, j));
  }

  // ---------- Writing ----------

  function GreyOf(m: Image): (nat, nat) -> Byte {
    (i: nat, j: nat) => if i * m.w + j < |m.data| then m.data[i * m.w + j] else 0
  }

  function ColourOf(m: Image): (nat, nat) -> Rgb {
    (i: nat, j: nat) =>
      var p := 3 * (i * m.w + j);
      if p + 3 <= |m.data| then Rgb(m.data[p], m.data[p + 1], m.data[p + 2]) else Rgb(0, 0, 0)
  }

  /** The bytes that are written are at the places the format gives them. */
  lemma EncodedStores(m: Image)
    requires Writable(m) && m.w < WORD / 2 && m.h < WORD / 2
    ensures m.bands == 3 ==> Stores24(Encoded(m), m.w, m.h, 40, 54, ColourOf(m))
    ensures m.bands != 3 ==> Stores8(Encoded(m), m.w, m.h, 40, 54 + 1024, c => Rgb(c, c, c), GreyOf(m))
  {
    hide Gather, Header, RowLen, Headed, Entry, IndexAt, At;
    var f := Encoded(m);
    var h, g, r := Header(m), Gather(Colours(m), GreyEntries()),
      Gather(m.h, if m.bands == 3 then ColourRows(m) else GreyRows(m));
    FileParts(h, g, r);
    HeadWritten(m, f);
    GatherLength(Colours(m), GreyEntries(), 4);
    Pitches(m.w);
    if m.bands == 3 {
      ColourRowsLen(m);
      forall i: nat, j: nat | i < m.h && j < m.w
        ensures Entry(f, At(m.h, Pitch(3 * m.w), 54, i, 3 * j), ColourOf(m)(i, j))
      {
        ColourWritten(m, f, i, j);
      }
    } else {
      GreyRowsLen(m);
      forall c: Byte
        ensures Entry(f, 54 + 4 * c as int, Rgb(c, c, c))
      {
        MapWritten(f, c);
      }
      forall i: nat, j: nat | i < m.h && j < m.w
        ensures IndexAt(f, At(m.h, Pitch(m.w), 54 + 1024, i, j), GreyOf(m)(i, j))
      {
        GreyWritten(m, f, i, j);
      }
    }
  }

  lemma HeadWritten(m: Image, f: seq<Byte>)
    requires Header(m) <= f && m.w < WORD / 2 && m.h < WORD / 2
    ensures Headed(f, m.w, m.h, 40, Bits(m), 54 + Colours(m) * 4, Colours(m))
  {
    hide GetInt, GetShort, Number, Header;
    HeadBack(m, f);
    Numbers(f, 10);
    Numbers(f, 14);
    Numbers(f, 18);
    Numbers(f, 22);
    Numbers(f, 26);
    Numbers(f, 28);
    Numbers(f, 30);
    Numbers(f, 46);
  }

  lemma MapWritten(f: seq<Byte>, c: Byte)
    requires |f| >= 54 + 1024 && f[54..54 + 1024] == Gather(256, GreyEntries())
    ensures Entry(f, 54 + 4 * c as int, Rgb(c, c, c))
  {
    hide Gather, GreyEntries;
    var e := GreyEntries();
    assert c as nat as Byte == c;
    assert (forall i: nat :: i < 256 ==> |e(i)| == 4) && e(c as nat) == [c, c, c, 0] by { EntriesAre(); }
    GatherAt(256, e, 4, c as nat);
    NestedSlice(f, 54, 1024, c as nat * 4, 4);
    ThreeAt(f, 54 + c as nat * 4, e(c as nat));
  }

  lemma EntriesAre()
    ensures forall i: nat :: i < 256 ==> GreyEntries()(i) == [i as Byte, i as Byte, i as Byte, 0]
  {
  }

  lemma GreyWritten(m: Image, f: seq<Byte>, i: nat, j: nat)
    requires m.h * m.w <= |m.data| && i < m.h && j < m.w && RowLen(m.w, 8) == Pitch(m.w)
    requires var n := m.h * RowLen(m.w, 8); 1078 + n <= |f| && f[1078..1078 + n] == Gather(m.h, GreyRows(m))
    ensures IndexAt(f, At(m.h, Pitch(m.w), 1078, i, j), GreyOf(m)(i, j))
  {
    hide Gather, RowLen, RowAt, At;
    GreyRowAt(m, f, 1078, i);
    RowPlace(m.h, 1078, m.w, i, j);
    var p := RowAt(1078, m.h, RowLen(m.w, 8), i);
    assert f[p + j] == f[p..p + m.w][j] == m.data[i * m.w..i * m.w + m.w][j] == m.data[i * m.w + j];
  }

  lemma ColourWritten(m: Image, f: seq<Byte>, i: nat, j: nat)
    requires m.h * (3 * m.w) <= |m.data| && i < m.h && j < m.w && RowLen(m.w, 24) == Pitch(3 * m.w)
    requires var n := m.h * RowLen(m.w, 24); 54 + n <= |f| && f[54..54 + n] == Gather(m.h, ColourRows(m))
    ensures Entry(f, At(m.h, Pitch(3 * m.w), 54, i, 3 * j), ColourOf(m)(i, j))
  {
    hide Gather, RowLen, RowAt, At, Turned, Entry, ColourOf;
    ColourRowAt(m, f, 54, i);
    RowPlace(m.h, 54, 3 * m.w, i, 3 * j);
    var p := RowAt(54, m.h, RowLen(m.w, 24), i);
    var row := m.data[i * (3 * m.w)..i * (3 * m.w) + 3 * m.w];
    TurnedWritten(row, m.w, j, f, p);
    ColourIs(m, i, j, row);
  }

  lemma ColourIs(m: Image, i: nat, j: nat, row: seq<Byte>)
    requires j < m.w && 0 <= i * (3 * m.w) && i * (3 * m.w) + 3 * m.w <= |m.data|
    requires row == m.data[i * (3 * m.w)..i * (3 * m.w) + 3 * m.w]
    ensures ColourOf(m)(i, j) == Rgb(row[3 * j], row[3 * j + 1], row[3 * j + 2])
  {
    var p := 3 * (i * m.w + j);
    assert p == i * (3 * m.w) + 3 * j;
    assert row[3 * j] == m.data[p] && row[3 * j + 1] == m.data[p + 1] && row[3 * j + 2] == m.data[p + 2];
  }

  lemma TurnedWritten(row: seq<Byte>, w: nat, j: nat, f: seq<Byte>, p: nat)
    requires |row| == 3 * w && j < w && p + 3 * w <= |f| && f[p..p + 3 * w] == Gather(w, Turned(row, 0))
    ensures Entry(f, p + 3 * j, Rgb(row[3 * j], row[3 * j + 1], row[3 * j + 2]))
  {
    hide Gather;
    GatherAt(w, Turned(row, 0), 3, j);
    NestedSlice(f, p, 3 * w, j * 3, 3);
    ThreeAt(f, p + j * 3, Turned(row, 0)(j));
  }

  /** Everything else is zero: the fourth byte of a colour, and the bytes that fill up a row; nothing follows the
      last row. */
  lemma EncodedRest(m: Image)
    requires Writable(m) && m.w < WORD / 2 && m.h < WORD / 2
    ensures var f, n, start := Encoded(m), if m.bands == 3 then 3 * m.w else m.w, if m.bands == 3 then 54 else 1078;
            && |f| == start + m.h * Pitch(n)
            && (m.bands != 3 ==> forall c: Byte :: FourthZero(f, c))
            && forall i: nat, off: nat :: i < m.h && n <= off < Pitch(n) ==>
                 IndexAt(f, At(m.h, Pitch(n), start, i, off), 0)
  {
    hide Gather, Header, RowLen, IndexAt, At, ColourRows, GreyRows;
    var f := Encoded(m);
    var n, start := if m.bands == 3 then 3 * m.w else m.w, if m.bands == 3 then 54 else 1078;
    var g, rows := Gather(Colours(m), GreyEntries()), if m.bands == 3 then ColourRows(m) else GreyRows(m);
    FileParts(Header(m), g, Gather(m.h, rows));
    GatherLength(Colours(m), GreyEntries(), 4);
    Pitches(m.w);
    if m.bands == 3 {
      ColourRowsLen(m);
    } else {
      GreyRowsLen(m);
      forall c: Byte
        ensures FourthZero(f, c)
      {
        FourthWritten(f, c);
      }
    }
    forall i: nat, off: nat | i < m.h && n <= off < Pitch(n)
      ensures IndexAt(f, At(m.h, Pitch(n), start, i, off), 0)
    {
      RowEnd(m, rows, m.h - 1 - i, off);
      StoredAt(f, start, m.h, rows, Pitch(n), i, off);
    }
  }

  predicate FourthZero(f: seq<Byte>, c: Byte) {
    IndexAt(f, 57 + 4 * c as int, 0)
  }

  lemma FourthWritten(f: seq<Byte>, c: Byte)
    requires |f| >= 54 + 1024 && f[54..54 + 1024] == Gather(256, GreyEntries())
    ensures FourthZero(f, c)
  {
    hide Gather, GreyEntries;
    var e := GreyEntries();
    assert c as nat as Byte == c;
    assert (forall i: nat :: i < 256 ==> |e(i)| == 4) && e(c as nat) == [c, c, c, 0] by { EntriesAre(); }
    GatherAt(256, e, 4, c as nat);
    NestedSlice(f, 54, 1024, c as nat * 4, 4);
    assert f[54 + c as nat * 4..54 + c as nat * 4 + 4][3] == f[57 + 4 * c as nat];
  }

  /** A stored row ends in zeros. */
  lemma RowEnd(m: Image, rows: nat -> seq<Byte>, r: nat, off: nat)
    requires Writable(m) && r < m.h && rows == if m.bands == 3 then ColourRows(m) else GreyRows(m)
    requires var n := if m.bands == 3 then 3 * m.w else m.w; n <= off < Pitch(n)
    ensures off < |rows(r)| && rows(r)[off] == 0
  {
    hide Gather, RowLen;
    Pitches(m.w);
    if m.bands == 3 {
      var i := m.h - 1 - r;
      RowWithin(m.h, 3 * m.w, i);
      TurnedLen(m.data[i * (3 * m.w)..i * (3 * m.w) + 3 * m.w], m.w);
    }
  }

  lemma StoredAt(f: seq<Byte>, start: nat, h: nat, rows: nat -> seq<Byte>, pitch: nat, i: nat, off: nat)
    requires (forall r: nat :: r < h ==> |rows(r)| == pitch) && i < h && off < pitch
    requires start + h * pitch <= |f| && f[start..start + h * pitch] == Gather(h, rows)
    ensures IndexAt(f, At(h, pitch, start, i, off), rows(h - 1 - i)[off])
  {
    hide Gather;
    var r := h - 1 - i;
    GatherAt(h, rows, pitch, r);
    RowWithin(h, pitch, r);
    NestedSlice(f, start, h * pitch, r * pitch, pitch);
    assert f[start + r * pitch..start + r * pitch + pitch][off] == f[start + r * pitch + off];
  }

  /** The other fields: the signature, the sizes of the file and of the pixels as the code counts them, the
      resolution, the length of the colour map, and zeros. */
  lemma OtherFields(m: Image)
    requires Writable(m)
    ensures var f := Encoded(m);
            var pixels := (m.w * (if m.bands == 3 then 24 else 8) + 31) / 32 * 3 * m.h;
            var colours := if m.bands == 3 then 0 else 256;
            && |f| >= 54 && f[0] == 'B' as Byte && f[1] == 'M' as Byte
            && Number(f, 2, 4) == (54 + colours * 4 + pixels) % WORD && Number(f, 6, 2) == 0 && Number(f, 8, 2) == 0
            && Number(f, 34, 4) == pixels % WORD && Number(f, 38, 4) == 2925 && Number(f, 42, 4) == 2925
            && Number(f, 46, 4) == colours && Number(f, 50, 4) == colours
  {
    hide Number, Gather, PutInt, PutShort, LineBytes;
    var f, s, n := Encoded(m), Header(m), LineBytes(m) * m.h;
    FileParts(s, Gather(Colours(m), GreyEntries()), Gather(m.h, if m.bands == 3 then ColourRows(m) else GreyRows(m)));
    OtherStretches(m);
    assert f[0] == s[0] && f[1] == s[1];
    IntWritten(f, s, 2, 14 + 40 + Colours(m) * 4 + n);
    ShortWritten(f, s, 6, 0);
    ShortWritten(f, s, 8, 0);
    IntWritten(f, s, 34, n);
    IntWritten(f, s, 38, 75 * 39);
    IntWritten(f, s, 42, 75 * 39);
    IntWritten(f, s, 46, Colours(m));
    IntWritten(f, s, 50, Colours(m));
    assert n == (m.w * (if m.bands == 3 then 24 else 8) + 31) / 32 * 3 * m.h by { LineBytesAre(m); }
  }

  lemma LineBytesAre(m: Image)
    ensures LineBytes(m) == (m.w * (if m.bands == 3 then 24 else 8) + 31) / 32 * 3
  {
  }

  lemma OtherStretches(m: Image)
    ensures var s, n := Header(m), LineBytes(m) * m.h;
            && s[0] == 0x42 && s[1] == 0x4D && s[2..6] == PutInt(14 + 40 + Colours(m) * 4 + n)
            && s[6..8] == PutShort(0) && s[8..10] == PutShort(0) && s[34..38] == PutInt(n)
            && s[38..42] == PutInt(75 * 39) && s[42..46] == PutInt(75 * 39)
            && s[46..50] == PutInt(Colours(m)) && s[50..54] == PutInt(Colours(m))
  {
    hide PutInt, PutShort, LineBytes;
  }

  lemma IntWritten(f: seq<Byte>, s: seq<Byte>, p: nat, i: nat)
    requires s <= f && p + 4 <= |s| && s[p..p + 4] == PutInt(i)
    ensures Number(f, p, 4) == i % WORD
  {
    hide Number, GetInt, PutInt;
    Within(f, s, p, p + 4);
    SameBytes(i);
    IntBack(f, p, i % WORD);
    Numbers(f, p);
  }

  lemma SameBytes(i: nat)
    ensures PutInt(i) == PutInt(i % WORD)
  {
    var k := i / WORD;
    assert i == i % WORD + k * WORD;
    Shift(i % WORD, k, 1, 0x100_0000);
    Shift(i % WORD, k, 256, 0x1_0000);
    Shift(i % WORD, k, 0x1_0000, 256);
    Shift(i % WORD, k, 0x100_0000, 1);
  }

  lemma Shift(j: nat, k: nat, u: nat, w: nat)
    requires u > 0 && 256 * w * u == WORD
    ensures (j + k * WORD) / u % 256 == j / u % 256
  {
    Factored(k, w, u);
    DivShift(j, k * w * 256, u);
    DivShift(j / u, k * w, 256);
  }

  lemma Factored(k: nat, w: nat, u: nat)
    ensures k * (256 * w * u) == k * w * 256 * u
  {
  }

  /** Whole multiples drop out of quotient and remainder. */
  lemma DivShift(j: nat, q: nat, u: nat)
    requires u > 0
    ensures (j + q * u) / u == j / u + q && (j + q * u) % u == j % u
  {
    var a, r, b, s := j / u, j % u, (j + q * u) / u, (j + q * u) % u;
    assert (a + q) * u == a * u + q * u;
    Times(a + q - b, u);
    Times(b - a - q, u);
    assert (a + q - b) * u == (a + q) * u - b * u && (b - a - q) * u == b * u - (a + q) * u;
  }

  lemma Times(x: int, u: nat)
    ensures x >= 1 ==> x * u >= u
  {
    if x >= 1 {
      assert x * u == u + (x - 1) * u;
    }
  }

  lemma ShortWritten(f: seq<Byte>, s: seq<Byte>, p: nat, i: nat)
    requires s <= f && p + 2 <= |s| && s[p..p + 2] == PutShort(i) && i < 0x1_0000
    ensures Number(f, p, 2) == i
  {
    hide Number, GetShort, PutShort;
    Within(f, s, p, p + 2);
    ShortBack(f, p, i);
    Numbers(f, p);
  }
}
