/** The loops of io_bmp.c, byte by byte through a file: the header field by field, the colour map, and
    rows from the last one up. Each leaves the file, or the picture, as the functions of Bmp say. */
module BmpFile {
  import opened Bytes
  import opened Bmp
  import Qube
  import QubeReader

  class File {
    var bytes: seq<Byte>
    var pos: nat

    constructor ()
      ensures bytes == [] && pos == 0
    {
      bytes, pos := [], 0;
    }

    method PutC(c: Byte)
      modifies `bytes
      ensures bytes == old(bytes) + [c]
    {
      bytes := bytes + [c];
    }

    method GetC() returns (c: Byte)
      requires pos < |bytes|
      modifies `pos
      ensures c == bytes[old(pos)] && pos == old(pos) + 1
    {
      c := bytes[pos];
      pos := pos + 1;
    }

    method WriteShort(i: int)
      modifies `bytes
      ensures bytes == old(bytes) + PutShort(i)
    {
      PutC((i % 256) as Byte);
      PutC((i / 256 % 256) as Byte);
    }

    method WriteInt(i: int)
      modifies `bytes
      ensures bytes == old(bytes) + PutInt(i)
    {
      PutC((i % 256) as Byte);
      PutC((i / 256 % 256) as Byte);
      PutC((i / 0x1_0000 % 256) as Byte);
      PutC((i / 0x100_0000 % 256) as Byte);
    }

    method ReadShort() returns (n: nat)
      requires pos + 2 <= |bytes|
      modifies `pos
      ensures n == GetShort(bytes, old(pos)) && pos == old(pos) + 2
    {
      var c := GetC();
      var c1 := GetC();
      n := c as int + 256 * c1 as int;
    }

    method ReadInt() returns (n: nat)
      requires pos + 4 <= |bytes|
      modifies `pos
      ensures n == GetInt(bytes, old(pos)) && pos == old(pos) + 4 && n < WORD
    {
      var c := GetC();
      var c1 := GetC();
      var c2 := GetC();
      var c3 := GetC();
      n := c as int + 256 * c1 as int + 0x1_0000 * c2 as int + 0x100_0000 * c3 as int;
    }

    method Skip(n: nat)
      requires pos + n <= |bytes|
      modifies `pos
      ensures pos == old(pos) + n
    {
      for i := 0 to n
        invariant pos == old(pos) + i
      {
        var _ := GetC();
      }
    }

    method PutZeros(n: nat)
      modifies `bytes
      ensures bytes == old(bytes) + Zeros(n)
    {
      for i := 0 to n
        invariant bytes == old(bytes) + Zeros(i)
      {
        PutC(0);
        assert Zeros(i) + [0] == Zeros(i + 1);
      }
    }
  }

  // ---------- Writing ----------

  method WriteFileHeader(fp: File, m: Image)
    modifies fp`bytes
    ensures fp.bytes == old(fp.bytes) + FileHeader(m)
  {
    hide PutInt, PutShort;
    var nbits, nc := Bits(m), Colours(m);
    var bperlin := (m.w * nbits + 31) / 32 * 3;
    fp.PutC(0x42);
    fp.PutC(0x4D);
    fp.WriteInt(14 + 40 + nc * 4 + bperlin * m.h);
    fp.WriteShort(0);
    fp.WriteShort(0);
    fp.WriteInt(14 + 40 + nc * 4);
  }

  method WriteSize(fp: File, m: Image)
    modifies fp`bytes
    ensures fp.bytes == old(fp.bytes) + (PutInt(40) + PutInt(m.w) + PutInt(m.h) + PutShort(1) + PutShort(Bits(m)) +
            PutInt(BI_RGB))
  {
    hide PutInt, PutShort;
    fp.WriteInt(40);
    fp.WriteInt(m.w);
    fp.WriteInt(m.h);
    fp.WriteShort(1);
    fp.WriteShort(Bits(m));
    fp.WriteInt(BI_RGB);
  }

  method WriteInfoHeader(fp: File, m: Image)
    modifies fp`bytes
    ensures fp.bytes == old(fp.bytes) + InfoHeader(m)
  {
    hide PutInt, PutShort;
    var nbits, nc := Bits(m), Colours(m);
    var bperlin := (m.w * nbits + 31) / 32 * 3;
    WriteSize(fp, m);
    fp.WriteInt(bperlin * m.h);
    fp.WriteInt(75 * 39);
    fp.WriteInt(75 * 39);
    fp.WriteInt(nc);
    fp.WriteInt(nc);
  }

  method WriteHeader(fp: File, m: Image)
    modifies fp`bytes
    ensures fp.bytes == old(fp.bytes) + Header(m)
  {
    hide FileHeader, InfoHeader;
    WriteFileHeader(fp, m);
    WriteInfoHeader(fp, m);
  }

  method WriteGreys(fp: File, nc: nat)
    requires nc <= 256
    modifies fp`bytes
    ensures fp.bytes == old(fp.bytes) + Gather(nc, GreyEntries())
  {
    ghost var start := fp.bytes;
    for i := 0 to nc
      invariant fp.bytes == start + Gather(i, GreyEntries())
    {
      fp.PutC(i as Byte);
      fp.PutC(i as Byte);
      fp.PutC(i as Byte);
      fp.PutC(0);
      assert fp.bytes == start + (Gather(i, GreyEntries()) + GreyEntries()(i));
    }
  }

  method PutRow(fp: File, row: seq<Byte>)
    modifies fp`bytes
    ensures fp.bytes == old(fp.bytes) + row
  {
    for j := 0 to |row|
      invariant fp.bytes == old(fp.bytes) + row[..j]
    {
      fp.PutC(row[j]);
      assert row[..j] + [row[j]] == row[..j + 1];
    }
    assert row[..|row|] == row;
  }

  method PutTurned(fp: File, row: seq<Byte>, w: nat)
    requires |row| == 3 * w
    modifies fp`bytes
    ensures fp.bytes == old(fp.bytes) + Gather(w, Turned(row, 0))
  {
    hide Gather, Turned;
    ghost var start := fp.bytes;
    TurnedStep(row, 0);
    for j := 0 to w
      invariant fp.bytes == start + Gather(j, Turned(row, 0))
    {
      TurnedStep(row, j);
      fp.PutC(row[3 * j + 2]);
      fp.PutC(row[3 * j + 1]);
      fp.PutC(row[3 * j]);
    }
  }

  lemma TurnedStep(row: seq<Byte>, j: nat)
    ensures Gather(0, Turned(row, 0)) == []
    ensures 3 * j + 2 < |row| ==>
      Gather(j + 1, Turned(row, 0)) == Gather(j, Turned(row, 0)) + [row[3 * j + 2], row[3 * j + 1], row[3 * j]]
  {
  }

  method WriteBMP8(fp: File, m: Image)
    requires m.h * m.w <= |m.data|
    modifies fp`bytes
    ensures fp.bytes == old(fp.bytes) + Gather(m.h, GreyRows(m))
  {
    hide RowOf, Zeros, Gather, GreyRows;
    ghost var start, f := fp.bytes, GreyRows(m);
    var padw := (m.w + 3) / 4 * 4;
    var i := m.h;
    GreyRowsStep(m, 0);
    while i > 0
      invariant 0 <= i <= m.h && fp.bytes == start + Gather(m.h - i, f)
    {
      i := i - 1;
      GreyRowsStep(m, m.h - 1 - i);
      PutRow(fp, RowOf(m.data, m.h, m.w, i));
      fp.PutZeros(padw - m.w);
    }
  }

  lemma GreyRowsStep(m: Image, r: nat)
    requires m.h * m.w <= |m.data|
    ensures Gather(0, GreyRows(m)) == [] && (m.w + 3) / 4 * 4 >= m.w
    ensures r < m.h ==>
      (Gather(r + 1, GreyRows(m))
       == Gather(r, GreyRows(m)) + (RowOf(m.data, m.h, m.w, m.h - 1 - r) + Zeros((m.w + 3) / 4 * 4 - m.w)))
  {
    hide RowOf, Zeros;
  }

  method WriteBMP24(fp: File, m: Image)
    requires m.h * (3 * m.w) <= |m.data|
    modifies fp`bytes
    ensures fp.bytes == old(fp.bytes) + Gather(m.h, ColourRows(m))
  {
    hide RowOf, Zeros, Gather, ColourRows, Turned;
    ghost var start, f := fp.bytes, ColourRows(m);
    var padb := (4 - m.w * 3 % 4) % 4;
    var i := m.h;
    ColourRowsStep(m, 0);
    while i > 0
      invariant 0 <= i <= m.h && fp.bytes == start + Gather(m.h - i, f)
    {
      i := i - 1;
      ColourRowsStep(m, m.h - 1 - i);
      PutTurned(fp, RowOf(m.data, m.h, 3 * m.w, i), m.w);
      fp.PutZeros(padb);
    }
  }

  lemma ColourRowsStep(m: Image, r: nat)
    requires m.h * (3 * m.w) <= |m.data|
    ensures Gather(0, ColourRows(m)) == []
    ensures r < m.h ==>
      (Gather(r + 1, ColourRows(m))
       == Gather(r, ColourRows(m))
          + (Gather(m.w, Turned(RowOf(m.data, m.h, 3 * m.w, m.h - 1 - r), 0)) + Zeros((4 - m.w * 3 % 4) % 4)))
  {
    hide RowOf, Zeros, Turned;
  }

  /** Write a picture that is in pixel order already. */
  method WritePicture(fp: File, m: Image)
    requires Writable(m)
    modifies fp`bytes
    ensures fp.bytes == old(fp.bytes) + Encoded(m)
  {
    hide Header, Gather;
    ghost var start := fp.bytes;
    WriteHeader(fp, m);
    WriteGreys(fp, Colours(m));
    if m.bands == 3 {
      WriteBMP24(fp, m);
    } else {
      WriteBMP8(fp, m);
    }
  }

  /** Write a cube of bytes, its size in the order of its organisation, as a picture. */
  method WriteBMP(fp: File, indata: array<Byte>, code: int, size: Qube.Triple<nat>) returns (ok: bool)
    requires Qube.Total(size) <= indata.Length && size.x0 >= 1 && size.x1 >= 1 && size.x2 >= 1
    modifies fp`bytes
    ensures ok <==> 0 <= code <= 2
    ensures ok ==>
      var m := Picture(indata[..], QubeReader.OrgOf(code), size);
      ImageOk(m) && Writable(m) && fp.bytes == old(fp.bytes) + Encoded(m)
    ensures !ok ==> fp.bytes == old(fp.bytes)
  {
    hide Qube.Bip, Encoded, Qube.Total;
    assert Qube.Total(size) * 1 == Qube.Total(size);
    var data;
    if code == 2 {
      data := indata[..Qube.Total(size)];
      Qube.TotalInOrg(Qube.BIP, Qube.FromOrg(Qube.BIP, size));
      QubeReader.AlreadyBip(indata[..], Qube.FromOrg(Qube.BIP, size), 1);
    } else {
      var bip := QubeReader.ConvertToBIP(indata, code, size, 1);
      if bip == null {
        return false;
      }
      data := bip[..];
    }
    PixelsFit(QubeReader.OrgOf(code), size, |data|);
    var s := Qube.FromOrg(QubeReader.OrgOf(code), size);
    var m := Image(s.x0, s.x1, s.x2, data);
    BandsFit(m);
    WritePicture(fp, m);
    ok := true;
  }

  /** A cube as a picture: samples, lines and bands, pixel by pixel. */
  function Picture(data: seq<Byte>, org: Qube.Org, size: Qube.Triple<nat>): Image {
    var s := Qube.FromOrg(org, size);
    Image(s.x0, s.x1, s.x2, Qube.Bip(data, org, s, 1))
  }

  lemma PixelsFit(org: Qube.Org, size: Qube.Triple<nat>, n: nat)
    requires n == Qube.Total(size) * 1 && size.x0 >= 1 && size.x1 >= 1 && size.x2 >= 1
    ensures var s := Qube.FromOrg(org, size); n == s.x1 * (s.x0 * s.x2) && s.x2 > 0
  {
    var s := Qube.FromOrg(org, size);
    Qube.TotalInOrg(org, s);
    Qube.TotalBytes(s, 1);
    assert s.x2 * 1 == s.x2;
  }

  // ---------- Reading ----------

  /** The fields of a new header after its size. */
  method ReadNew(fp: File, offBits: nat, biSize: nat) returns (d: Head)
    requires |fp.bytes| >= 54 && fp.pos == 18
    modifies fp`pos
    ensures fp.pos == 54
    ensures d == Head(biSize, offBits, AsInt(GetInt(fp.bytes, 18)), AsInt(GetInt(fp.bytes, 22)),
            GetShort(fp.bytes, 26), GetShort(fp.bytes, 28),
                      GetInt(fp.bytes, 30), GetInt(fp.bytes, 46), 54)
  {
    hide GetInt, GetShort, AsInt;
    var w := fp.ReadInt();
    var h := fp.ReadInt();
    var planes := fp.ReadShort();
    var bits := fp.ReadShort();
    var comp := fp.ReadInt();
    fp.Skip(12);
    var clrUsed := fp.ReadInt();
    fp.Skip(4);
    d := Head(biSize, offBits, AsInt(w), AsInt(h), planes, bits, comp, clrUsed, 54);
  }

  /** The header, field by field. */
  method ReadHeader(fp: File) returns (d: Head)
    requires |fp.bytes| >= 54
    modifies fp`pos
    ensures d == ReadHead(fp.bytes) && fp.pos == d.end
  {
    hide GetInt, GetShort, AsInt;
    fp.pos := 0;
    fp.Skip(10);
    var offBits := fp.ReadInt();
    var biSize := fp.ReadInt();
    if biSize == WIN_NEW || biSize == OS2_NEW {
      d := ReadNew(fp, offBits, biSize);
    } else {
      var w := fp.ReadShort();
      var h := fp.ReadShort();
      var planes := fp.ReadShort();
      var bits := fp.ReadShort();
      d := Head(biSize, offBits, w, h, planes, bits, BI_RGB, 0, 26);
    }
  }

  method ReadEntry(fp: File, d: Head, c: nat) returns (r: Byte, g: Byte, b: Byte)
    requires c < 256 && fp.pos == MapStart(d) + EntryLen(d) * c && fp.pos + EntryLen(d) <= |fp.bytes|
    modifies fp`pos
    ensures fp.pos == old(fp.pos) + EntryLen(d)
    ensures r == Red(fp.bytes, d, c) && g == Green(fp.bytes, d, c) && b == Blue(fp.bytes, d, c)
  {
    hide MapStart;
    b := fp.GetC();
    g := fp.GetC();
    r := fp.GetC();
    if d.biSize != WIN_OS2_OLD {
      fp.Skip(1);
    }
  }

  /** The arrays hold the colour map. */
  ghost predicate IsMap(f: seq<Byte>, d: Head, red: array<Byte>, green: array<Byte>, blue: array<Byte>)
    requires MapFits(f, d)
    reads red, green, blue
  {
    && red.Length == green.Length == blue.Length == 256
    && forall c: nat :: c < 256 ==> red[c] == Red(f, d, c) && green[c] == Green(f, d, c) && blue[c] == Blue(f, d, c)
  }

  /** The colour map: whether all of it is grey. */
  method ReadMap(fp: File, d: Head) returns (red: array<Byte>, green: array<Byte>, blue: array<Byte>, grey: bool)
    requires MapFits(fp.bytes, d) && fp.pos == MapStart(d)
    modifies fp`pos
    ensures fresh(red) && fresh(green) && fresh(blue) && IsMap(fp.bytes, d, red, green, blue)
    ensures grey <==> Grey(fp.bytes, d)
    ensures fp.pos == MapStart(d) + EntryLen(d) * 256
  {
    hide MapStart, Red, Green, Blue;
    red, green, blue := new Byte[256], new Byte[256], new Byte[256];
    grey := true;
    for i := 0 to 256
      invariant fp.pos == MapStart(d) + EntryLen(d) * i
      invariant forall c: nat :: c < i ==> red[c] == Red(fp.bytes, d, c) && green[c] == Green(fp.bytes, d, c)
      invariant forall c: nat :: c < i ==> blue[c] == Blue(fp.bytes, d, c)
      invariant grey <==> forall c: nat :: c < i ==>
                Red(fp.bytes, d, c) == Blue(fp.bytes, d, c) && Red(fp.bytes, d, c) == Green(fp.bytes, d, c)
    {
      var r, g, b := ReadEntry(fp, d, i);
      red[i], green[i], blue[i] := r, g, b;
      if grey && (r != b || r != g) {
        grey := false;
      }
    }
  }

  /** Put a pixel into its row. */
  method Store(data: array<Byte>, at: nat, s: seq<Byte>)
    requires at + |s| <= data.Length
    modifies data
    ensures data[..at + |s|] == old(data[..at]) + s
    ensures data[at + |s|..] == old(data[at + |s|..])
  {
    forall k | 0 <= k < |s| {
      data[at + k] := s[k];
    }
  }

  /** A row with a colour map, and the bytes that fill it up. */
  method LoadRow8(fp: File, d: Head, data: array<Byte>, at: nat, w: nat, red: array<Byte>, green: array<Byte>,
                  blue: array<Byte>, grey: bool, band: nat)
    requires band == (if grey then 1 else 3) && MapFits(fp.bytes, d) && fp.pos + RowLen(w, 8) <= |fp.bytes|
    requires data != red && data != green && data != blue && IsMap(fp.bytes, d, red, green, blue)
    requires at + w * band <= data.Length
    modifies fp`pos, data
    ensures fp.pos == old(fp.pos) + RowLen(w, 8)
    ensures data[..at + w * band] == old(data[..at]) + Gather(w, MapPixels(fp.bytes, d, old(fp.pos), grey))
    ensures data[at + w * band..] == old(data[at + w * band..])
  {
    hide Gather, MapPixels, PixelOf, MapFits, RowLen, IsMap;
    ghost var f := MapPixels(fp.bytes, d, fp.pos, grey);
    var pp := at;
    PixelStep(fp.bytes, d, fp.pos, grey, 0);
    for j := 0 to w
      invariant fp.pos == old(fp.pos) + j && pp == at + j * band && pp <= data.Length
      invariant data[..pp] == old(data[..at]) + Gather(j, f) && data[pp..] == old(data[pp..])
    {
      Step(j, w, band);
      PixelStep(fp.bytes, d, old(fp.pos), grey, j);
      LoadPixel(fp, d, data, pp, red, green, blue, grey, band);
      pp := pp + band;
    }
    fp.Skip(RowLen(w, 8) - w);
  }

  lemma Step(j: nat, w: nat, band: nat)
    requires j < w
    ensures j * band + band == (j + 1) * band <= w * band
  {
    RowWithin(w, band, j);
  }

  /** One pixel, looked up in the colour map. */
  method LoadPixel(fp: File, d: Head, data: array<Byte>, pp: nat, red: array<Byte>, green: array<Byte>,
                   blue: array<Byte>, grey: bool, band: nat)
    requires band == (if grey then 1 else 3) && MapFits(fp.bytes, d) && fp.pos < |fp.bytes| && pp + band <= data.Length
    requires data != red && data != green && data != blue && IsMap(fp.bytes, d, red, green, blue)
    modifies fp`pos, data
    ensures fp.pos == old(fp.pos) + 1
    ensures data[..pp + band] == old(data[..pp]) + PixelOf(fp.bytes, d, grey, fp.bytes[old(fp.pos)])
    ensures data[pp + band..] == old(data[pp + band..])
  {
    hide Red, Green, Blue, MapStart;
    var c := fp.GetC();
    Store(data, pp, if grey then [red[c]] else [red[c], green[c], blue[c]]);
  }

  lemma PixelStep(f: seq<Byte>, d: Head, p: nat, grey: bool, j: nat)
    requires MapFits(f, d)
    ensures Gather(0, MapPixels(f, d, p, grey)) == []
    ensures p + j < |f| ==>
              var row := MapPixels(f, d, p, grey);
              Gather(j + 1, row) == Gather(j, row) + PixelOf(f, d, grey, f[p + j])
  {
    hide PixelOf;
  }

  /** A row of pixels stored blue, green, red, and the bytes that fill it up. */
  method LoadRow24(fp: File, data: array<Byte>, at: nat, w: nat)
    requires fp.pos + RowLen(w, 24) <= |fp.bytes| && at + 3 * w <= data.Length
    modifies fp`pos, data
    ensures fp.pos == old(fp.pos) + RowLen(w, 24)
    ensures data[..at + 3 * w] == old(data[..at]) + Gather(w, Turned(fp.bytes, old(fp.pos)))
    ensures data[at + 3 * w..] == old(data[at + 3 * w..])
  {
    hide Gather, Turned, RowLen;
    ghost var f := Turned(fp.bytes, fp.pos);
    var pp := at;
    TurnStep(fp.bytes, fp.pos, 0);
    for j := 0 to w
      invariant fp.pos == old(fp.pos) + 3 * j && pp == at + 3 * j
      invariant data[..pp] == old(data[..at]) + Gather(j, f) && data[pp..] == old(data[pp..])
    {
      TurnStep(fp.bytes, old(fp.pos), j);
      var b := fp.GetC();
      var g := fp.GetC();
      var r := fp.GetC();
      Store(data, pp, [r, g, b]);
      pp := pp + 3;
    }
    fp.Skip(RowLen(w, 24) - 3 * w);
  }

  lemma TurnStep(f: seq<Byte>, p: nat, j: nat)
    ensures Gather(0, Turned(f, p)) == []
    ensures p + 3 * j + 2 < |f| ==>
      Gather(j + 1, Turned(f, p)) == Gather(j, Turned(f, p)) + [f[p + 3 * j + 2], f[p + 3 * j + 1], f[p + 3 * j]]
  {
  }

  /** Where the next row is stored and where it belongs. */
  lemma RowsUp(start: nat, h: nat, len: nat, n: nat, i: nat)
    requires i < h
    ensures RowAt(start, h, len, i) == start + (h - 1 - i) * len && (h - 1 - i) * len + len == (h - i) * len
    ensures (i + 1) * n == i * n + n && i * n >= 0 && (i + 1) * n <= h * n && (h - i) * len <= h * len
  {
    RowWithin(h, n, i);
    RowWithin(h, len, h - 1 - i);
  }

  method LoadBMP8(fp: File, d: Head, data: array<Byte>, red: array<Byte>, green: array<Byte>, blue: array<Byte>,
                  grey: bool, band: nat)
    requires band == (if grey then 1 else 3) && MapFits(fp.bytes, d) && d.biSize < WORD && d.offBits < WORD &&
             d.w >= 0 && d.h >= 0
    requires fp.pos == DataStart(d) && fp.pos + d.h * RowLen(d.w, 8) <= |fp.bytes|
    requires data != red && data != green && data != blue && IsMap(fp.bytes, d, red, green, blue)
    requires data.Length == d.h * (d.w * band)
    modifies fp`pos, data
    ensures data[..] == Gather(d.h, MapRows(fp.bytes, d, grey))
  {
    hide IsMap, MapFits, DataStart, RowLen, Red, Green, Blue, Gather, MapPixels, RowAt, MapRows, GatherFrom;
    MapRowsFrom(fp.bytes, d, grey, d.h);
    ghost var f, start, len := MapRows(fp.bytes, d, grey), fp.pos, RowLen(d.w, 8);
    var n := d.w * band;
    var i, pp: nat := d.h, d.h * n;
    assert (d.h - i) * len == 0;
    while i > 0
      invariant 0 <= i <= d.h && pp == i * n && pp <= data.Length && fp.pos == start + (d.h - i) * len
      invariant data[pp..] == GatherFrom(i, d.h, f)
    {
      i := i - 1;
      RowsUp(start, d.h, len, n, i);
      ghost var end := pp;
      pp := pp - n;
      MapRowsFrom(fp.bytes, d, grey, i);
      LoadRow8(fp, d, data, pp, d.w, red, green, blue, grey, band);
      assert data[pp..] == data[..end][pp..] + data[end..];
    }
    GatherSplit(0, d.h, f);
    GatherNothing(f);
    assert data[..] == data[0..];
  }

  lemma MapRowsFrom(f: seq<Byte>, d: Head, grey: bool, i: nat)
    requires MapFits(f, d) && d.biSize < WORD && d.offBits < WORD && d.w >= 0 && d.h >= 0
    ensures var rows := MapRows(f, d, grey);
            && (i >= d.h ==> GatherFrom(i, d.h, rows) == [])
            && (i < d.h ==>
                  (GatherFrom(i, d.h, rows)
                   == Gather(d.w, MapPixels(f, d, RowAt(DataStart(d), d.h, RowLen(d.w, 8), i), grey)) +
                      GatherFrom(i + 1, d.h, rows)))
  {
    hide MapFits, DataStart, RowLen, Gather, MapPixels, RowAt;
  }

  lemma TurnedRowsFrom(f: seq<Byte>, d: Head, i: nat)
    requires d.biSize < WORD && d.offBits < WORD && d.w >= 0 && d.h >= 0
    ensures var rows := TurnedRows(f, d);
            && (i >= d.h ==> GatherFrom(i, d.h, rows) == [])
            && (i < d.h ==>
                  (GatherFrom(i, d.h, rows)
                   == Gather(d.w, Turned(f, RowAt(DataStart(d), d.h, RowLen(d.w, 24), i))) +
                      GatherFrom(i + 1, d.h, rows)))
  {
    hide DataStart, RowLen, Gather, Turned, RowAt;
  }

  lemma GatherNothing(f: nat -> seq<Byte>)
    ensures Gather(0, f) == []
  {
  }

  method LoadBMP24(fp: File, d: Head, data: array<Byte>)
    requires d.biSize < WORD && d.offBits < WORD && d.w >= 0 && d.h >= 0
    requires fp.pos == DataStart(d) && fp.pos + d.h * RowLen(d.w, 24) <= |fp.bytes|
    requires data.Length == d.h * (3 * d.w)
    modifies fp`pos, data
    ensures data[..] == Gather(d.h, TurnedRows(fp.bytes, d))
  {
    hide DataStart, RowLen, Gather, Turned, RowAt, TurnedRows, GatherFrom;
    TurnedRowsFrom(fp.bytes, d, d.h);
    ghost var f, start, len := TurnedRows(fp.bytes, d), fp.pos, RowLen(d.w, 24);
    var n := 3 * d.w;
    var i, pp: nat := d.h, d.h * n;
    assert (d.h - i) * len == 0;
    while i > 0
      invariant 0 <= i <= d.h && pp == i * n && pp <= data.Length && fp.pos == start + (d.h - i) * len
      invariant data[pp..] == GatherFrom(i, d.h, f)
    {
      i := i - 1;
      RowsUp(start, d.h, len, n, i);
      ghost var end := pp;
      pp := pp - n;
      TurnedRowsFrom(fp.bytes, d, i);
      LoadRow24(fp, data, pp, d.w);
      assert data[pp..] == data[..end][pp..] + data[end..];
    }
    GatherSplit(0, d.h, f);
    GatherNothing(f);
    assert data[..] == data[0..];
  }

  method Read24(fp: File, d: Head) returns (r: Result)
    requires d.biSize < WORD && d.offBits < WORD && d.w >= 0 && d.h >= 0 && d.bits == 24 && fp.pos == d.end
    requires DataStart(d) + d.h * RowLen(d.w, 24) <= |fp.bytes|
    modifies fp`pos
    ensures r == Read(Image(d.w, d.h, 3, Gather(d.h, TurnedRows(fp.bytes, d))))
  {
    hide RowLen, Gather, TurnedRows;
    Forward(d);
    Product(d.h, RowLen(d.w, 24));
    fp.Skip(DataStart(d) - fp.pos);
    var data := new Byte[d.h * (3 * d.w)];
    LoadBMP24(fp, d, data);
    r := Read(Image(d.w, d.h, 3, data[..]));
  }

  method Read8(fp: File, d: Head) returns (r: Result)
    requires d.biSize < WORD && d.offBits < WORD && d.w >= 0 && d.h >= 0 && d.bits == 8 && fp.pos == d.end
    requires MapFits(fp.bytes, d) && DataStart(d) + d.h * RowLen(d.w, 8) <= |fp.bytes|
    modifies fp`pos
    ensures r == Read(Image(d.w, d.h, if Grey(fp.bytes, d) then 1 else 3,
                            Gather(d.h, MapRows(fp.bytes, d, Grey(fp.bytes, d)))))
  {
    hide RowLen, Gather, MapRows, Grey, Red, Green, Blue, DataStart, MapStart, EntryLen;
    Forward(d);
    Product(d.h, RowLen(d.w, 8));
    fp.Skip(MapStart(d) - fp.pos);
    var red, green, blue, grey := ReadMap(fp, d);
    fp.Skip(DataStart(d) - fp.pos);
    var band := if grey then 1 else 3;
    var data := new Byte[d.h * (d.w * band)];
    LoadBMP8(fp, d, data, red, green, blue, grey, band);
    r := Read(Image(d.w, d.h, band, data[..]));
  }

  /** The parts of a file come in order. */
  lemma Forward(d: Head)
    requires d.biSize < WORD && d.offBits < WORD
    ensures d.end <= MapStart(d) <= MapStart(d) + EntryLen(d) * MapLen(d) <= DataStart(d)
  {
  }

  lemma Product(a: nat, b: nat)
    ensures a * b >= 0
  {
  }

  /** Read a file from its start. */
  method ReadBMP(fp: File) returns (r: Result)
    modifies fp`pos
    ensures r == Decoded(fp.bytes)
  {
    hide Bogus, DataStart, RowLen, Gather, MapFits, Grey;
    if |fp.bytes| < 54 {
      return NotModelled;
    }
    var d := ReadHeader(fp);
    if Bogus(d) {
      return Rejected;
    }
    if d.w < 0 || d.h < 0 {
      return NotModelled;
    }
    if d.bits == 24 {
      if DataStart(d) + d.h * RowLen(d.w, 24) > |fp.bytes| {
        return NotModelled;
      }
      r := Read24(fp, d);
    } else if d.bits == 8 {
      if !MapFits(fp.bytes, d) || DataStart(d) + d.h * RowLen(d.w, 8) > |fp.bytes| {
        return NotModelled;
      }
      r := Read8(fp, d);
    } else {
      r := NotModelled;
    }
  }

  /** A cube of one or three bands, written in whatever organisation and read again, is the same picture. */
  method WriteAndRead(indata: array<Byte>, org: Qube.Org, size: Qube.Triple<nat>) returns (r: Result)
    requires Qube.Total(size) <= indata.Length && size.x0 >= 1 && size.x1 >= 1 && size.x2 >= 1
    requires var s := Qube.FromOrg(org, size); s.x0 < WORD / 2 && s.x1 < WORD / 2 && (s.x2 == 1 || s.x2 == 3)
    ensures r == Read(Picture(indata[..], org, size))
  {
    hide Encoded, Decoded, Qube.Bip, Qube.Total;
    var fp := new File();
    var code := QubeReader.Code(org);
    var _ := WriteBMP(fp, indata, code, size);
    assert fp.bytes == Encoded(Picture(indata[..], org, size));
    RoundTrip(Picture(indata[..], org, size));
    r := ReadBMP(fp);
  }
}
