/** BMP files, byte by byte. */
module Bmp {
  import opened Bytes

  const WIN_OS2_OLD := 12
  const WIN_NEW := 40
  const OS2_NEW := 64
  const BI_RGB := 0
  const BI_RLE8 := 1
  const BI_RLE4 := 2
  const WORD := 0x1_0000_0000

  /** Bytes of a picture, pixel by pixel, the bands of a pixel side by side. */
  datatype Image = Image(w: nat, h: nat, bands: nat, data: seq<Byte>)

  predicate ImageOk(m: Image) {
    m.bands > 0 && |m.data| == m.h * (m.w * m.bands)
  }

  // ---------- Numbers, low byte first ----------

  function PutShort(i: int): (s: seq<Byte>)
    ensures |s| == 2
  {
    [(i % 256) as Byte, (i / 256 % 256) as Byte]
  }

  function PutInt(i: int): (s: seq<Byte>)
    ensures |s| == 4
  {
    [(i % 256) as Byte, (i / 256 % 256) as Byte, (i / 0x1_0000 % 256) as Byte, (i / 0x100_0000 % 256) as Byte]
  }

  function GetShort(f: seq<Byte>, p: nat): nat
    requires p + 2 <= |f|
  {
    f[p] as int + 256 * f[p + 1] as int
  }

  function GetInt(f: seq<Byte>, p: nat): (n: nat)
    requires p + 4 <= |f|
    ensures n < WORD
  {
    f[p] as int + 256 * f[p + 1] as int + 0x1_0000 * f[p + 2] as int + 0x100_0000 * f[p + 3] as int
  }

  /** A number that fits comes back. */
  lemma ShortBack(f: seq<Byte>, p: nat, i: nat)
    requires p + 2 <= |f| && f[p..p + 2] == PutShort(i) && i < 0x1_0000
    ensures GetShort(f, p) == i
  {
    assert f[p] == f[p..p + 2][0] && f[p + 1] == f[p..p + 2][1];
  }

  lemma IntBack(f: seq<Byte>, p: nat, i: nat)
    requires p + 4 <= |f| && f[p..p + 4] == PutInt(i) && i < WORD
    ensures GetInt(f, p) == i
  {
    var s := f[p..p + 4];
    assert f[p] == s[0] && f[p + 1] == s[1] && f[p + 2] == s[2] && f[p + 3] == s[3];
    var a := i / 256;
    assert i == a * 256 + i % 256;
    assert i / 0x1_0000 == a / 256 && a == a / 256 * 256 + a % 256;
    assert i / 0x100_0000 == a / 256 / 256 && a / 256 == a / 256 / 256 * 256 + a / 256 % 256;
    assert a / 256 / 256 < 256;
  }

  /** An unsigned number taken for an int. */
  function AsInt(u: nat): (i: int)
    requires u < WORD
    ensures -WORD <= 2 * i < WORD && (i - u) % WORD == 0
  {
    if u < WORD / 2 then u else u - WORD
  }

  // ---------- Reading ----------

  datatype Head = Head(biSize: nat, offBits: nat, w: int, h: int, planes: nat, bits: nat, comp: nat, clrUsed: nat,
    end: nat)

  /** The header, and where it ends; the old format has short fields and fewer of them. */
  function ReadHead(f: seq<Byte>): Head
    requires |f| >= 54
  {
    var biSize := GetInt(f, 14);
    if biSize == WIN_NEW || biSize == OS2_NEW then
      Head(biSize, GetInt(f, 10), AsInt(GetInt(f, 18)), AsInt(GetInt(f, 22)), GetShort(f, 26), GetShort(f, 28),
        GetInt(f, 30), GetInt(f, 46), 54)
    else
      Head(biSize, GetInt(f, 10), GetShort(f, 18), GetShort(f, 20), GetShort(f, 22), GetShort(f, 24), BI_RGB, 0, 26)
  }

  /** The checks that make a file bogus. */
  predicate Bogus(d: Head) {
    || d.bits !in {1, 4, 8, 24, 32} || d.planes != 1 || d.comp > BI_RLE4
    || ((d.bits == 1 || d.bits == 24 || d.bits != 32) && d.comp != BI_RGB)
    || (d.bits == 4 && d.comp == BI_RLE8) || (d.bits == 8 && d.comp == BI_RLE4)
  }

  function MapLen(d: Head): nat {
    if d.bits == 24 || d.bits == 32 then 0 else if d.clrUsed != 0 then d.clrUsed else if d.bits == 8 then 256
      else if d.bits == 4 then 16 else 2
  }

  function EntryLen(d: Head): nat {
    if d.biSize != WIN_OS2_OLD then 4 else 3
  }

  /** Where the colour map starts: an extended header is skipped, if its length beyond 40 bytes is positive
      as an int. */
  function MapStart(d: Head): nat {
    var c := (d.biSize - 40) % WORD;
    if d.biSize != WIN_OS2_OLD && c < WORD / 2 then d.end + c else d.end
  }

  /** Where the pixels start: unused bytes after the map are skipped. */
  function DataStart(d: Head): (p: nat)
    requires d.biSize < WORD && d.offBits < WORD
    ensures p >= MapStart(d) + EntryLen(d) * MapLen(d)
  {
    var mapEnd := MapStart(d) + EntryLen(d) * MapLen(d);
    if d.biSize == WIN_OS2_OLD then mapEnd
    else
      var pad := AsInt((d.offBits - d.biSize - 14) % WORD) - 4 * MapLen(d);
      if pad > 0 then mapEnd + pad else mapEnd
  }

  /** The colour map's entry for a colour: blue, green, red. */
  function Blue(f: seq<Byte>, d: Head, c: nat): Byte
    requires MapStart(d) + EntryLen(d) * c + 3 <= |f|
  {
    f[MapStart(d) + EntryLen(d) * c]
  }

  function Green(f: seq<Byte>, d: Head, c: nat): Byte
    requires MapStart(d) + EntryLen(d) * c + 3 <= |f|
  {
    f[MapStart(d) + EntryLen(d) * c + 1]
  }

  function Red(f: seq<Byte>, d: Head, c: nat): Byte
    requires MapStart(d) + EntryLen(d) * c + 3 <= |f|
  {
    f[MapStart(d) + EntryLen(d) * c + 2]
  }

  predicate MapFits(f: seq<Byte>, d: Head) {
    MapLen(d) == 256 && MapStart(d) + EntryLen(d) * 256 <= |f|
  }

  /** All colours of the map are greys. */
  predicate Grey(f: seq<Byte>, d: Head)
    requires MapFits(f, d)
  {
    forall c: nat :: c < 256 ==> Red(f, d, c) == Blue(f, d, c) && Red(f, d, c) == Green(f, d, c)
  }

  /** The length of a stored row: rows are filled up to four bytes. */
  function RowLen(w: nat, bits: nat): (n: nat)
    ensures n >= if bits == 24 then 3 * w else w
  {
    if bits == 24 then 3 * w + (4 - 3 * w % 4) % 4 else (w + 3) / 4 * 4
  }

  /** The bands of a pixel of colour c: one for a grey map, else three. */
  function PixelOf(f: seq<Byte>, d: Head, grey: bool, c: Byte): (s: seq<Byte>)
    requires MapFits(f, d)
    ensures |s| == if grey then 1 else 3
  {
    if grey then [Red(f, d, c as nat)] else [Red(f, d, c as nat), Green(f, d, c as nat), Blue(f, d, c as nat)]
  }

  /** Pixel j of a row stored at p with a colour map. */
  function MapPixels(f: seq<Byte>, d: Head, p: nat, grey: bool): nat -> seq<Byte>
    requires MapFits(f, d)
  {
    (j: nat) =>
      if p + j >= |f| then []
      else
        PixelOf(f, d, grey, f[p + j])
  }

  /** The three bytes at p + 3 j the other way round. */
  function Turned(f: seq<Byte>, p: nat): nat -> seq<Byte> {
    (j: nat) => if p + 3 * j + 2 >= |f| then [] else [f[p + 3 * j + 2], f[p + 3 * j + 1], f[p + 3 * j]]
  }

  /** Where row i is stored: the last one comes first. */
  function RowAt(start: nat, h: nat, len: nat, i: nat): (p: nat)
    requires i < h
    ensures start <= p && p + len <= start + h * len
  {
    RowWithin(h, len, h - 1 - i);
    start + (h - 1 - i) * len
  }

  lemma RowWithin(h: nat, n: nat, i: nat)
    requires i < h
    ensures 0 <= i * n && i * n + n <= h * n
  {
    var t := h - 1 - i;
    assert h * n == (i + 1 + t) * n == i * n + n + t * n;
  }

  /** The picture's rows. */
  function MapRows(f: seq<Byte>, d: Head, grey: bool): nat -> seq<Byte>
    requires MapFits(f, d) && d.biSize < WORD && d.offBits < WORD && d.w >= 0 && d.h >= 0
  {
    (i: nat) => if i >= d.h then [] else Gather(d.w, MapPixels(f, d, RowAt(DataStart(d), d.h, RowLen(d.w, 8), i), grey))
  }

  function TurnedRows(f: seq<Byte>, d: Head): nat -> seq<Byte>
    requires d.biSize < WORD && d.offBits < WORD && d.w >= 0 && d.h >= 0
  {
    (i: nat) => if i >= d.h then [] else Gather(d.w, Turned(f, RowAt(DataStart(d), d.h, RowLen(d.w, 24), i)))
  }

  /** Rejected, read, or of a kind that is not modelled: truncated, with 1, 4 or 32 bits a pixel, a colour
      map of other than 256 entries, or dimensions that are negative as an int. */
  datatype Result = Rejected | Read(image: Image) | NotModelled

  function Decoded(f: seq<Byte>): Result {
    if |f| < 54 then NotModelled
    else
      var d := ReadHead(f);
      if Bogus(d) then Rejected
      else if d.w < 0 || d.h < 0 then NotModelled
      else if d.bits == 24 then
        if DataStart(d) + d.h * RowLen(d.w, 24) > |f| then NotModelled
        else Read(Image(d.w, d.h, 3, Gather(d.h, TurnedRows(f, d))))
      else if d.bits == 8 then
        if !MapFits(f, d) || DataStart(d) + d.h * RowLen(d.w, 8) > |f| then NotModelled
        else Read(Image(d.w, d.h, if Grey(f, d) then 1 else 3, Gather(d.h, MapRows(f, d, Grey(f, d)))))
      else NotModelled
  }

  // ---------- Writing ----------

  function Bits(m: Image): nat {
    if m.bands == 3 then 24 else 8
  }

  function Colours(m: Image): nat {
    if m.bands == 3 then 0 else 256
  }

  /** The bytes of a line as the header counts them. */
  function LineBytes(m: Image): nat {
    (m.w * Bits(m) + 31) / 32 * 3
  }

  function FileHeader(m: Image): (s: seq<Byte>)
    ensures |s| == 14
  {
    [0x42, 0x4D]
    + PutInt(14 + 40 + Colours(m) * 4 + LineBytes(m) * m.h) + PutShort(0) + PutShort(0)
    + PutInt(14 + 40 + Colours(m) * 4)
  }

  function InfoHeader(m: Image): (s: seq<Byte>)
    ensures |s| == 40
  {
    PutInt(40) + PutInt(m.w) + PutInt(m.h) + PutShort(1) + PutShort(Bits(m)) + PutInt(BI_RGB)
    + PutInt(LineBytes(m) * m.h) + PutInt(75 * 39) + PutInt(75 * 39) + PutInt(Colours(m)) + PutInt(Colours(m))
  }

  function Header(m: Image): (s: seq<Byte>)
    ensures |s| == 54
  {
    FileHeader(m) + InfoHeader(m)
  }

  /** Colour c is the grey c. */
  function GreyEntries(): nat -> seq<Byte> {
    (c: nat) => if c < 256 then [c as Byte, c as Byte, c as Byte, 0] else [0, 0, 0, 0]
  }

  /** Row i of h rows of n bytes. */
  function RowOf(data: seq<Byte>, h: nat, n: nat, i: nat): (row: seq<Byte>)
    requires i < h && h * n <= |data|
    ensures |row| == n
  {
    RowWithin(h, n, i);
    data[i * n..i * n + n]
  }

  /** Row r as it is stored, counted from the last one up. */
  function GreyRow(m: Image, r: nat): seq<Byte>
    requires r < m.h && m.h * m.w <= |m.data|
  {
    RowOf(m.data, m.h, m.w, m.h - 1 - r) + Zeros(RowLen(m.w, 8) - m.w)
  }

  function ColourRow(m: Image, r: nat): seq<Byte>
    requires r < m.h && m.h * (3 * m.w) <= |m.data|
  {
    Gather(m.w, Turned(RowOf(m.data, m.h, 3 * m.w, m.h - 1 - r), 0)) + Zeros(RowLen(m.w, 24) - 3 * m.w)
  }

  function GreyRows(m: Image): nat -> seq<Byte>
    requires m.h * m.w <= |m.data|
  {
    (r: nat) => if r < m.h then GreyRow(m, r) else []
  }

  function ColourRows(m: Image): nat -> seq<Byte>
    requires m.h * (3 * m.w) <= |m.data|
  {
    (r: nat) => if r < m.h then ColourRow(m, r) else []
  }

  predicate Writable(m: Image) {
    (if m.bands == 3 then m.h * (3 * m.w) else m.h * m.w) <= |m.data|
  }

  /** The file. Every picture that has not three bands is taken for a grey one. */
  function Encoded(m: Image): seq<Byte>
    requires Writable(m)
  {
    Header(m) + Gather(Colours(m), GreyEntries()) + Gather(m.h, if m.bands == 3 then ColourRows(m) else GreyRows(m))
  }

  // ---------- Writing, then reading ----------

  /** A stretch of the header. */
  lemma HeaderFields(m: Image)
    ensures var s := Header(m);
            && s[10..14] == PutInt(54 + Colours(m) * 4) && s[14..18] == PutInt(40) && s[18..22] == PutInt(m.w) &&
               s[22..26] == PutInt(m.h)
            && s[26..28] == PutShort(1) && s[28..30] == PutShort(Bits(m)) && s[30..34] == PutInt(BI_RGB) &&
               s[46..50] == PutInt(Colours(m))
  {
    hide PutInt, PutShort, LineBytes;
  }

  lemma Within(f: seq<Byte>, s: seq<Byte>, a: nat, b: nat)
    requires s <= f && a <= b <= |s|
    ensures f[a..b] == s[a..b]
  {
  }

  /** The header read back. */
  lemma HeadBack(m: Image, f: seq<Byte>)
    requires Header(m) <= f && m.w < WORD / 2 && m.h < WORD / 2
    ensures |f| >= 54
    ensures ReadHead(f) == Head(40, 54 + Colours(m) * 4, m.w, m.h, 1, Bits(m), BI_RGB, Colours(m), 54)
  {
    hide PutInt, PutShort, GetInt, GetShort, Header;
    var s := Header(m);
    HeaderFields(m);
    Within(f, s, 10, 14);
    Within(f, s, 14, 18);
    Within(f, s, 18, 22);
    Within(f, s, 22, 26);
    Within(f, s, 26, 28);
    Within(f, s, 28, 30);
    Within(f, s, 30, 34);
    Within(f, s, 46, 50);
    IntBack(f, 10, 54 + Colours(m) * 4);
    IntBack(f, 14, 40);
    IntBack(f, 18, m.w);
    IntBack(f, 22, m.h);
    ShortBack(f, 26, 1);
    ShortBack(f, 28, Bits(m));
    IntBack(f, 30, BI_RGB);
    IntBack(f, 46, Colours(m));
  }

  lemma StartsAt(m: Image)
    ensures var d := Head(40, 54 + Colours(m) * 4, m.w, m.h, 1, Bits(m), BI_RGB, Colours(m), 54);
            MapStart(d) == 54 && MapLen(d) == Colours(m) && EntryLen(d) == 4 && DataStart(d) == 54 + Colours(m) * 4 &&
              !Bogus(d)
  {
  }

  /** The three parts of a file. */
  lemma FileParts(h: seq<Byte>, g: seq<Byte>, r: seq<Byte>)
    ensures var f := h + g + r;
            && h <= f && f[|h|..|h| + |g|] == g && f[|h| + |g|..|h| + |g| + |r|] == r && |f| == |h| + |g| + |r|
  {
  }

  /** The map that was written is grey, colour by colour. */
  lemma MapBack(m: Image, f: seq<Byte>, d: Head, c: nat)
    requires d.biSize == 40 && MapStart(d) == 54 && EntryLen(d) == 4 && c < 256
    requires |f| >= 54 + 1024 && f[54..54 + 1024] == Gather(256, GreyEntries())
    ensures Red(f, d, c) == Green(f, d, c) == Blue(f, d, c) == c as Byte
  {
    hide MapStart, EntryLen, Gather;
    GatherAt(256, GreyEntries(), 4, c);
    NestedSlice(f, 54, 1024, c * 4, 4);
    ThreeAt(f, 54 + c * 4, GreyEntries()(c));
  }

  /** A stored row of greys, looked up in the grey map, is the row. */
  lemma {:induction false} GreyRowBack(f: seq<Byte>, d: Head, p: nat, row: seq<Byte>, n: nat)
    requires MapFits(f, d) && p + |row| <= |f| && f[p..p + |row|] == row && n <= |row|
    requires forall c: nat :: c < 256 ==> Red(f, d, c) == c as Byte
    ensures Gather(n, MapPixels(f, d, p, true)) == row[..n]
  {
    if n > 0 {
      GreyRowBack(f, d, p, row, n - 1);
      assert f[p + (n - 1)] == f[p..p + |row|][n - 1] == row[n - 1];
      var c := row[n - 1];
      assert Red(f, d, c as nat) == c as nat as Byte == c;
      assert MapPixels(f, d, p, true)(n - 1) == PixelOf(f, d, true, c) == [c];
      assert row[..n] == row[..n - 1] + [row[n - 1]];
    }
  }

  /** The first bytes of a stretch. */
  lemma ThreeAt(f: seq<Byte>, p: nat, t: seq<Byte>)
    requires |t| >= 3 && p + |t| <= |f| && f[p..p + |t|] == t
    ensures f[p] == t[0] && f[p + 1] == t[1] && f[p + 2] == t[2]
  {
    assert f[p..p + |t|][0] == f[p] && f[p..p + |t|][1] == f[p + 1] && f[p..p + |t|][2] == f[p + 2];
  }

  lemma TurnedAt(f: seq<Byte>, p: nat, row: seq<Byte>, w: nat, j: nat)
    requires |row| == 3 * w && j < w && p + 3 * w <= |f| && f[p..p + 3 * w] == Gather(w, Turned(row, 0))
    ensures Turned(f, p)(j) == [row[3 * j], row[3 * j + 1], row[3 * j + 2]]
  {
    hide Gather;
    GatherAt(w, Turned(row, 0), 3, j);
    NestedSlice(f, p, 3 * w, j * 3, 3);
    ThreeAt(f, p + j * 3, Turned(row, 0)(j));
  }

  /** Bytes turned round twice are as they were. */
  lemma {:induction false} TurnedBack(f: seq<Byte>, p: nat, row: seq<Byte>, w: nat, n: nat)
    requires |row| == 3 * w && n <= w && p + 3 * w <= |f| && f[p..p + 3 * w] == Gather(w, Turned(row, 0))
    ensures Gather(n, Turned(f, p)) == row[..3 * n]
  {
    hide Turned;
    if n > 0 {
      TurnedBack(f, p, row, w, n - 1);
      var j := n - 1;
      TurnedAt(f, p, row, w, j);
      assert row[..3 * n] == row[..3 * j] + [row[3 * j], row[3 * j + 1], row[3 * j + 2]];
    }
  }

  lemma GreyRowsLen(m: Image)
    requires m.h * m.w <= |m.data|
    ensures forall r: nat :: r < m.h ==> |GreyRows(m)(r)| == RowLen(m.w, 8)
    ensures |Gather(m.h, GreyRows(m))| == m.h * RowLen(m.w, 8)
  {
    hide Gather, RowLen;
    forall r: nat | r < m.h
      ensures |GreyRows(m)(r)| == RowLen(m.w, 8)
    {
      RowWithin(m.h, m.w, m.h - 1 - r);
    }
    GatherLength(m.h, GreyRows(m), RowLen(m.w, 8));
  }

  /** Row i of a grey picture, found in the file. */
  lemma GreyRowAt(m: Image, f: seq<Byte>, start: nat, i: nat)
    requires m.h * m.w <= |m.data| && i < m.h
    requires start + m.h * RowLen(m.w, 8) <= |f| && f[start..start + m.h * RowLen(m.w, 8)] == Gather(m.h, GreyRows(m))
    ensures 0 <= i * m.w && i * m.w + m.w <= |m.data|
    ensures var p := RowAt(start, m.h, RowLen(m.w, 8), i);
            p + m.w <= |f| && f[p..p + m.w] == m.data[i * m.w..i * m.w + m.w]
  {
    hide Gather, RowLen;
    var len, r := RowLen(m.w, 8), m.h - 1 - i;
    GreyRowsLen(m);
    GatherAt(m.h, GreyRows(m), len, r);
    RowWithin(m.h, len, r);
    NestedSlice(f, start, m.h * len, r * len, len);
    RowWithin(m.h, m.w, i);
    FirstPart(f, start + r * len, m.data[i * m.w..i * m.w + m.w], Zeros(len - m.w));
  }

  lemma FirstPart(f: seq<Byte>, p: nat, a: seq<Byte>, b: seq<Byte>)
    requires p + |a + b| <= |f| && f[p..p + |a + b|] == a + b
    ensures f[p..p + |a|] == a
  {
    assert f[p..p + |a|] == f[p..p + |a + b|][..|a|];
  }

  lemma GreyBack(m: Image, f: seq<Byte>, d: Head)
    requires m.h * m.w <= |m.data| && MapFits(f, d) && d.biSize < WORD && d.offBits < WORD && d.w == m.w && d.h == m.h
    requires forall c: nat :: c < 256 ==> Red(f, d, c) == c as Byte
    requires var n := m.h * RowLen(m.w, 8);
             && DataStart(d) + n <= |f|
             && f[DataStart(d)..DataStart(d) + n] == Gather(m.h, GreyRows(m))
    ensures Gather(m.h, MapRows(f, d, true)) == m.data[..m.h * m.w]
  {
    hide Gather, RowAt, DataStart, RowLen, MapPixels, Red, MapFits;
    forall i: nat | i < m.h
      ensures PieceAt(m.data, 0, m.w, i, MapRows(f, d, true)(i))
    {
      GreyRowAt(m, f, DataStart(d), i);
      var row := m.data[i * m.w..i * m.w + m.w];
      GreyRowBack(f, d, RowAt(DataStart(d), m.h, RowLen(m.w, 8), i), row, m.w);
      assert row[..m.w] == row;
    }
    Stretch(m.data, 0, m.h, MapRows(f, d, true), m.w);
  }

  lemma {:induction false} TurnedLen(row: seq<Byte>, w: nat)
    requires |row| >= 3 * w
    ensures |Gather(w, Turned(row, 0))| == 3 * w
  {
    if w > 0 {
      TurnedLen(row, w - 1);
    }
  }

  lemma ColourRowsLen(m: Image)
    requires m.h * (3 * m.w) <= |m.data|
    ensures forall r: nat :: r < m.h ==> |ColourRows(m)(r)| == RowLen(m.w, 24)
    ensures |Gather(m.h, ColourRows(m))| == m.h * RowLen(m.w, 24)
  {
    hide Gather;
    forall r: nat | r < m.h
      ensures |ColourRows(m)(r)| == RowLen(m.w, 24)
    {
      var i := m.h - 1 - r;
      RowWithin(m.h, 3 * m.w, i);
      TurnedLen(m.data[i * (3 * m.w)..i * (3 * m.w) + 3 * m.w], m.w);
    }
    GatherLength(m.h, ColourRows(m), RowLen(m.w, 24));
  }

  lemma ColourRowAt(m: Image, f: seq<Byte>, start: nat, i: nat)
    requires m.h * (3 * m.w) <= |m.data| && i < m.h
    requires start + m.h * RowLen(m.w, 24) <= |f|
    requires f[start..start + m.h * RowLen(m.w, 24)] == Gather(m.h, ColourRows(m))
    ensures 0 <= i * (3 * m.w) && i * (3 * m.w) + 3 * m.w <= |m.data|
    ensures var p := RowAt(start, m.h, RowLen(m.w, 24), i);
            p + 3 * m.w <= |f| && f[p..p + 3 * m.w] ==
              Gather(m.w, Turned(m.data[i * (3 * m.w)..i * (3 * m.w) + 3 * m.w], 0))
  {
    hide Gather, RowLen;
    var len, r := RowLen(m.w, 24), m.h - 1 - i;
    ColourRowsLen(m);
    GatherAt(m.h, ColourRows(m), len, r);
    RowWithin(m.h, len, r);
    NestedSlice(f, start, m.h * len, r * len, len);
    RowWithin(m.h, 3 * m.w, i);
    var row := m.data[i * (3 * m.w)..i * (3 * m.w) + 3 * m.w];
    TurnedLen(row, m.w);
    FirstPart(f, start + r * len, Gather(m.w, Turned(row, 0)), Zeros(len - 3 * m.w));
  }

  lemma ColourBack(m: Image, f: seq<Byte>, d: Head)
    requires m.h * (3 * m.w) <= |m.data| && d.biSize < WORD && d.offBits < WORD && d.w == m.w && d.h == m.h
    requires var n := m.h * RowLen(m.w, 24);
             && DataStart(d) + n <= |f|
             && f[DataStart(d)..DataStart(d) + n] == Gather(m.h, ColourRows(m))
    ensures Gather(m.h, TurnedRows(f, d)) == m.data[..m.h * (3 * m.w)]
  {
    hide Gather, RowAt, DataStart, RowLen, Turned;
    forall i: nat | i < m.h
      ensures PieceAt(m.data, 0, 3 * m.w, i, TurnedRows(f, d)(i))
    {
      ColourRowAt(m, f, DataStart(d), i);
      var row := m.data[i * (3 * m.w)..i * (3 * m.w) + 3 * m.w];
      TurnedBack(f, RowAt(DataStart(d), m.h, RowLen(m.w, 24), i), row, m.w, m.w);
      assert row[..3 * m.w] == row;
    }
    Stretch(m.data, 0, m.h, TurnedRows(f, d), 3 * m.w);
  }

  /** What comes back of a picture: three bands as they are, anything else as the grey picture its first
      bytes make up. */
  function Kept(m: Image): Image
    requires Writable(m)
  {
    if m.bands == 3 then Image(m.w, m.h, 3, m.data[..m.h * (3 * m.w)]) else Image(m.w, m.h, 1, m.data[..m.h * m.w])
  }

  lemma WriteThenRead(m: Image)
    requires Writable(m) && m.w < WORD / 2 && m.h < WORD / 2
    ensures Decoded(Encoded(m)) == Read(Kept(m))
  {
    hide Gather, Header, ReadHead, RowLen, Bogus, MapFits, DataStart, Grey;
    var f := Encoded(m);
    var h, g, r := Header(m), Gather(Colours(m), GreyEntries()),
      Gather(m.h, if m.bands == 3 then ColourRows(m) else GreyRows(m));
    FileParts(h, g, r);
    HeadBack(m, f);
    StartsAt(m);
    GatherLength(Colours(m), GreyEntries(), 4);
    var d := ReadHead(f);
    if m.bands == 3 {
      ColourRowsLen(m);
      ColourBack(m, f, d);
    } else {
      GreyRowsLen(m);
      AllGrey(m, f, d);
      GreyBack(m, f, d);
    }
  }

  lemma AllGrey(m: Image, f: seq<Byte>, d: Head)
    requires d.biSize == 40 && MapStart(d) == 54 && EntryLen(d) == 4 && MapLen(d) == 256
    requires |f| >= 54 + 1024 && f[54..54 + 1024] == Gather(256, GreyEntries())
    ensures MapFits(f, d) && Grey(f, d) && forall c: nat :: c < 256 ==> Red(f, d, c) == c as Byte
  {
    hide Gather, Red, Green, Blue, MapStart, EntryLen, MapLen;
    forall c: nat | c < 256
      ensures Red(f, d, c) == Green(f, d, c) == Blue(f, d, c) == c as Byte
    {
      MapBack(m, f, d, c);
    }
  }

  /** A picture survives the trip exactly if it has one band or three. */
  lemma RoundTrip(m: Image)
    requires ImageOk(m) && m.w < WORD / 2 && m.h < WORD / 2
    ensures Writable(m)
    ensures Decoded(Encoded(m)) == Read(m) <==> m.bands == 1 || m.bands == 3
  {
    hide Decoded, Encoded;
    BandsFit(m);
    WriteThenRead(m);
    assert m.data[..|m.data|] == m.data;
  }

  lemma BandsFit(m: Image)
    requires ImageOk(m)
    ensures Writable(m) && (m.bands == 1 ==> m.h * m.w == |m.data|) && (m.bands == 3 ==> m.h * (3 * m.w) == |m.data|)
  {
    assert m.w * m.bands == m.w + m.w * (m.bands - 1);
    assert m.w * (m.bands - 1) >= 0;
    assert m.h * (m.w * m.bands) == m.h * m.w + m.h * (m.w * (m.bands - 1));
    assert m.h * (m.w * (m.bands - 1)) >= 0;
  }
}
