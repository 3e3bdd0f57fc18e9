/**
 The FramebufferUpdate message of a stream (src/vnc/client.rs, crates/frd-wire-rfb/src/messages.rs; sections
 7.6.1, 7.7.1 and 7.7.2 of RFC 6143): the parser, the encoding it inverts, and what it guarantees to the
 framebuffer.
 */
module UpdateParser {
  import opened Bytes
  import opened Results
  import opened Framebuffers

  const MAX_RECTS_PER_UPDATE := 4096
  const MAX_UPDATE_RAW_BYTES := 128 * 1024 * 1024
  const BYTES_PER_PIXEL := 4
  const RECTANGLE_HEADER_BYTES := 12

  // Encodings are signed on the wire; all those known are positive, so their unsigned values are compared.
  const RAW: u32 := 0
  const COPYRECT: u32 := 1
  const MVS: u32 := 0x3f3
  const APPLE_STATE_MIN: u32 := 0x44c
  const CURSOR: u32 := 0x450
  const APPLE_STATE_MAX: u32 := 0x456
  const CURSOR_MAGIC: u32 := 0x3e8
  const MAX_CURSOR_BYTES := 4 * 1024 * 1024

  datatype Item = Draw(op: RectOp) | Cursor(x: u16, y: u16, w: u16, h: u16, payload: seq<u8>)

  datatype Error =
    | Truncated | TooManyRectangles | ZeroWidth | ZeroHeight | RectangleTooLarge | OverRawBudget | MvsInStream
    | WrongCursorMagic | CursorTooLarge | AppleState | UnknownEncoding

  // ---------- Pixels ----------

  function LittleEndian(n: u32): (s: seq<u8>)
    ensures |s| == 4
  {
    [U32(n)[3], U32(n)[2], U32(n)[1], U32(n)[0]]
  }

  function FromLittleEndian(s: seq<u8>): u32
    requires |s| == 4
  {
    FromU32([s[3], s[2], s[1], s[0]])
  }

  function EncodedPixels(pixels: seq<u32>): (s: seq<u8>)
    ensures |s| == BYTES_PER_PIXEL * |pixels|
  {
    if pixels == [] then [] else EncodedPixels(pixels[..|pixels| - 1]) + LittleEndian(pixels[|pixels| - 1])
  }

  function DecodedPixels(raw: seq<u8>): (pixels: seq<u32>)
    requires |raw| % BYTES_PER_PIXEL == 0
    ensures BYTES_PER_PIXEL * |pixels| == |raw|
  {
    if raw == [] then [] else DecodedPixels(raw[..|raw| - 4]) + [FromLittleEndian(raw[|raw| - 4..])]
  }

  lemma LittleEndianRoundTrip(n: u32, s: seq<u8>)
    requires |s| == 4
    ensures FromLittleEndian(LittleEndian(n)) == n
    ensures LittleEndian(FromLittleEndian(s)) == s
  {
    hide U32, FromU32;
    U32RoundTrip(n);
    assert U32(n) == [U32(n)[0], U32(n)[1], U32(n)[2], U32(n)[3]];
    U32Canonical([s[3], s[2], s[1], s[0]]);
  }

  lemma {:induction false} PixelsRoundTrip(pixels: seq<u32>)
    ensures DecodedPixels(EncodedPixels(pixels)) == pixels
  {
    hide LittleEndian, FromLittleEndian;
    if pixels != [] {
      var front, last := pixels[..|pixels| - 1], pixels[|pixels| - 1];
      PixelsRoundTrip(front);
      LittleEndianRoundTrip(last, LittleEndian(last));
      var raw := EncodedPixels(pixels);
      assert raw[..|raw| - 4] == EncodedPixels(front) && raw[|raw| - 4..] == LittleEndian(last);
    }
  }

  lemma {:induction false} RawRoundTrip(raw: seq<u8>)
    requires |raw| % BYTES_PER_PIXEL == 0
    ensures EncodedPixels(DecodedPixels(raw)) == raw
  {
    hide LittleEndian, FromLittleEndian;
    if raw != [] {
      var front, last := raw[..|raw| - 4], raw[|raw| - 4..];
      RawRoundTrip(front);
      LittleEndianRoundTrip(0, last);
      var pixels := DecodedPixels(raw);
      assert pixels[..|pixels| - 1] == DecodedPixels(front);
    }
  }

  method DecodeRawPixels(raw: seq<u8>) returns (r: Result<seq<u32>>)
    ensures r == if |raw| % BYTES_PER_PIXEL == 0 then Ok(DecodedPixels(raw)) else Err
  {
    if |raw| % BYTES_PER_PIXEL != 0 {
      return Err;
    }
    var pixels := [];
    for i := 0 to |raw| / BYTES_PER_PIXEL
      invariant pixels == DecodedPixels(raw[..4 * i])
    {
      var chunk := raw[4 * i..4 * i + 4];
      assert raw[..4 * (i + 1)][..4 * i] == raw[..4 * i] && raw[..4 * (i + 1)][4 * i..] == chunk;
      pixels := pixels + [FromLittleEndian(chunk)];
    }
    assert raw[..|raw|] == raw;
    return Ok(pixels);
  }

  // ---------- Rectangles ----------

  datatype ParsedItem = ParsedItem(item: Item, used: nat) | RefusedItem(error: Error)

  function PixelCount(w: nat, h: nat): nat {
    w * h
  }

  function ParseItem(s: seq<u8>, rawBytes: nat): ParsedItem {
    if |s| < RECTANGLE_HEADER_BYTES then RefusedItem(Truncated)
    else
      var x, y, w, h := FromU16(s[..2]), FromU16(s[2..4]), FromU16(s[4..6]), FromU16(s[6..8]);
      if w == 0 then RefusedItem(ZeroWidth)
      else if h == 0 then RefusedItem(ZeroHeight)
      else ParseBody(s, x, y, w, h, FromU32(s[8..12]), rawBytes)
  }

  function ParseBody(s: seq<u8>, x: u16, y: u16, w: u16, h: u16, encoding: u32, rawBytes: nat): ParsedItem
    requires |s| >= RECTANGLE_HEADER_BYTES
  {
    if encoding == RAW then
      if PixelCount(w, h) > MAX_FRAMEBUFFER_PIXELS then RefusedItem(RectangleTooLarge)
      else
        var n := BYTES_PER_PIXEL * PixelCount(w, h);
        if rawBytes + n > MAX_UPDATE_RAW_BYTES then RefusedItem(OverRawBudget)
        else if |s| < 12 + n then RefusedItem(Truncated)
        else ParsedItem(Draw(Raw(x, y, w, h, DecodedPixels(s[12..12 + n]))), 12 + n)
    else if encoding == COPYRECT then
      if PixelCount(w, h) > MAX_FRAMEBUFFER_PIXELS then RefusedItem(RectangleTooLarge)
      else if |s| < 16 then RefusedItem(Truncated)
      else ParsedItem(Draw(Copy(x, y, w, h, FromU16(s[12..14]), FromU16(s[14..16]))), 16)
    else if encoding == MVS then RefusedItem(MvsInStream)
    else if encoding == CURSOR then
      if |s| < 16 then RefusedItem(Truncated)
      else if FromU32(s[12..16]) != CURSOR_MAGIC then RefusedItem(WrongCursorMagic)
      else if |s| < 20 then RefusedItem(Truncated)
      else
        var n := FromU32(s[16..20]);
        if n > MAX_CURSOR_BYTES then RefusedItem(CursorTooLarge)
        else if |s| < 20 + n then RefusedItem(Truncated)
        else ParsedItem(Cursor(x, y, w, h, s[20..20 + n]), 20 + n)
    else if APPLE_STATE_MIN <= encoding <= APPLE_STATE_MAX then RefusedItem(AppleState)
    else RefusedItem(UnknownEncoding)
  }

  function RawBytesOf(item: Item): nat {
    if item.Draw? && item.op.Raw? then BYTES_PER_PIXEL * |item.op.pixels| else 0
  }

  predicate Is16(n: nat) {
    n <= MAX_U16
  }

  /** The rectangles an update may carry after rawBytes bytes of raw data. */
  predicate Fits(item: Item, rawBytes: nat) {
    match item
    case Draw(Raw(x, y, w, h, pixels)) =>
      && Is16(x) && Is16(y) && Is16(w) && Is16(h) && w > 0 && h > 0
      && |pixels| == PixelCount(w, h) <= MAX_FRAMEBUFFER_PIXELS
      && rawBytes + BYTES_PER_PIXEL * |pixels| <= MAX_UPDATE_RAW_BYTES
    case Draw(Copy(x, y, w, h, sx, sy)) =>
      && Is16(x) && Is16(y) && Is16(w) && Is16(h) && w > 0 && h > 0 && Is16(sx) && Is16(sy)
      && PixelCount(w, h) <= MAX_FRAMEBUFFER_PIXELS
    case Cursor(x, y, w, h, payload) => w > 0 && h > 0 && |payload| <= MAX_CURSOR_BYTES
  }

  function EncodedHeader(x: u16, y: u16, w: u16, h: u16, encoding: u32): (s: seq<u8>)
    ensures |s| == RECTANGLE_HEADER_BYTES
  {
    U16(x) + U16(y) + U16(w) + U16(h) + U32(encoding)
  }

  function EncodedItem(item: Item): (s: seq<u8>)
    requires Fits(item, 0)
    ensures |s| >= RECTANGLE_HEADER_BYTES
  {
    match item
    case Draw(Raw(x, y, w, h, pixels)) => EncodedHeader(x, y, w, h, RAW) + EncodedPixels(pixels)
    case Draw(Copy(x, y, w, h, sx, sy)) => EncodedHeader(x, y, w, h, COPYRECT) + U16(sx) + U16(sy)
    case Cursor(x, y, w, h, payload) =>
      EncodedHeader(x, y, w, h, CURSOR) + U32(CURSOR_MAGIC) + U32(|payload|) + payload
  }

  lemma HeaderParses(x: u16, y: u16, w: u16, h: u16, encoding: u32, s: seq<u8>)
    requires |s| >= 12 && s[..12] == EncodedHeader(x, y, w, h, encoding)
    ensures FromU16(s[..2]) == x && FromU16(s[2..4]) == y && FromU16(s[4..6]) == w && FromU16(s[6..8]) == h
    ensures FromU32(s[8..12]) == encoding
  {
    hide U16, U32, FromU16, FromU32;
    var t := s[..12];
    assert t[..2] == U16(x) && t[2..4] == U16(y) && t[4..6] == U16(w) && t[6..8] == U16(h) && t[8..12] == U32(encoding);
    assert s[..2] == t[..2] && s[2..4] == t[2..4] && s[4..6] == t[4..6] && s[6..8] == t[6..8] && s[8..12] == t[8..12];
    U16RoundTrip(x);
    U16RoundTrip(y);
    U16RoundTrip(w);
    U16RoundTrip(h);
    U32RoundTrip(encoding);
  }

  lemma HeaderIsEncoded(s: seq<u8>)
    requires |s| >= 12
    ensures s[..12] == EncodedHeader(FromU16(s[..2]), FromU16(s[2..4]), FromU16(s[4..6]), FromU16(s[6..8]),
                                     FromU32(s[8..12]))
  {
    hide U16, U32, FromU16, FromU32;
    U16Canonical(s[..2]);
    U16Canonical(s[2..4]);
    U16Canonical(s[4..6]);
    U16Canonical(s[6..8]);
    U32Canonical(s[8..12]);
    assert s[..12] == s[..2] + s[2..4] + s[4..6] + s[6..8] + s[8..12];
  }

  /** An encoded rectangle is read back, whatever follows it. */
  lemma EncodedItemParses(item: Item, rawBytes: nat, tail: seq<u8>)
    requires Fits(item, rawBytes)
    ensures ParseItem(EncodedItem(item) + tail, rawBytes) == ParsedItem(item, |EncodedItem(item)|)
  {
    hide U16, U32, FromU16, FromU32, EncodedHeader, EncodedPixels, DecodedPixels, PixelCount;
    var e := EncodedItem(item);
    var s := e + tail;
    match item {
      case Draw(Raw(x, y, w, h, pixels)) =>
        assert s[..12] == EncodedHeader(x, y, w, h, RAW);
        HeaderParses(x, y, w, h, RAW, s);
        PixelsRoundTrip(pixels);
        assert s[12..12 + 4 * PixelCount(w, h)] == EncodedPixels(pixels);
      case Draw(Copy(x, y, w, h, sx, sy)) =>
        assert s[..12] == EncodedHeader(x, y, w, h, COPYRECT);
        HeaderParses(x, y, w, h, COPYRECT, s);
        U16RoundTrip(sx);
        U16RoundTrip(sy);
        assert s[12..14] == U16(sx) && s[14..16] == U16(sy);
      case Cursor(x, y, w, h, payload) =>
        assert s[..12] == EncodedHeader(x, y, w, h, CURSOR);
        HeaderParses(x, y, w, h, CURSOR, s);
        U32RoundTrip(CURSOR_MAGIC);
        U32RoundTrip(|payload|);
        assert s[12..16] == U32(CURSOR_MAGIC) && s[16..20] == U32(|payload|) && s[20..20 + |payload|] == payload;
    }
  }

  /** Whatever is read is the encoding of what it is read as, within the limits. */
  lemma ParsedItemIsEncoded(s: seq<u8>, rawBytes: nat)
    requires ParseItem(s, rawBytes).ParsedItem?
    ensures var p := ParseItem(s, rawBytes);
            Fits(p.item, rawBytes) && p.used <= |s| && s[..p.used] == EncodedItem(p.item)
  {
    hide U16, U32, FromU16, FromU32, EncodedHeader, EncodedPixels, DecodedPixels, PixelCount;
    var p := ParseItem(s, rawBytes);
    HeaderIsEncoded(s);
    match p.item {
      case Draw(Raw(x, y, w, h, pixels)) =>
        RawRoundTrip(s[12..p.used]);
        assert s[..p.used] == s[..12] + s[12..p.used];
      case Draw(Copy(x, y, w, h, sx, sy)) =>
        U16Canonical(s[12..14]);
        U16Canonical(s[14..16]);
        assert s[..16] == s[..12] + s[12..14] + s[14..16];
      case Cursor(x, y, w, h, payload) =>
        U32Canonical(s[12..16]);
        U32Canonical(s[16..20]);
        assert s[..p.used] == s[..12] + s[12..16] + s[16..20] + s[20..p.used];
    }
  }

  /** What is wrong with a rectangle: its size, then what its encoding asks for, then that bytes are missing. */
  lemma RefusalsAreNamed(s: seq<u8>, rawBytes: nat)
    requires |s| >= RECTANGLE_HEADER_BYTES
    ensures var w, h, encoding := FromU16(s[4..6]), FromU16(s[6..8]), FromU32(s[8..12]);
            var p := ParseItem(s, rawBytes);
            && (p == RefusedItem(ZeroWidth) <==> w == 0)
            && (p == RefusedItem(ZeroHeight) <==> w > 0 && h == 0)
            && (w > 0 && h > 0 ==>
                  && (p == RefusedItem(RectangleTooLarge) <==>
                        encoding in {RAW, COPYRECT} && w * h > MAX_FRAMEBUFFER_PIXELS)
                  && (p == RefusedItem(OverRawBudget) <==>
                        encoding == RAW && w * h <= MAX_FRAMEBUFFER_PIXELS
                        && rawBytes + 4 * (w * h) > MAX_UPDATE_RAW_BYTES)
                  && (p == RefusedItem(MvsInStream) <==> encoding == MVS)
                  && (p == RefusedItem(WrongCursorMagic) <==>
                        encoding == CURSOR && |s| >= 16 && FromU32(s[12..16]) != CURSOR_MAGIC)
                  && (p == RefusedItem(CursorTooLarge) <==>
                        encoding == CURSOR && |s| >= 20 && FromU32(s[12..16]) == CURSOR_MAGIC
                        && FromU32(s[16..20]) > MAX_CURSOR_BYTES)
                  && (p == RefusedItem(AppleState) <==>
                        encoding !in {RAW, COPYRECT, MVS, CURSOR} && APPLE_STATE_MIN <= encoding <= APPLE_STATE_MAX)
                  && (p == RefusedItem(UnknownEncoding) <==>
                        encoding !in {RAW, COPYRECT, MVS, CURSOR}
                        && !(APPLE_STATE_MIN <= encoding <= APPLE_STATE_MAX)))
  {
    hide DecodedPixels, FromU16, FromU32;
  }

  /** A rectangle header byte by byte: position, size, encoding. */
  lemma HeaderBytes(x: u8, y: u8, w: u8, h: u8, encoding: u8)
    ensures EncodedHeader(x, y, w, h, encoding) == [0, x, 0, y, 0, w, 0, h, 0, 0, 0, encoding]
  {
  }

  /** A copy's source follows its header. */
  lemma CopyBytes(x: u8, y: u8, w: u8, h: u8, sx: u8, sy: u8)
    requires w > 0 && h > 0
    ensures Fits(Draw(Copy(x, y, w, h, sx, sy)), 0)
    ensures EncodedItem(Draw(Copy(x, y, w, h, sx, sy))) == EncodedHeader(x, y, w, h, COPYRECT) + [0, sx, 0, sy]
  {
    hide EncodedHeader;
    assert w * h <= 0x100 * h <= 0x100 * 0x100;
  }

  /** Pixels come least significant byte first. */
  lemma PixelBytes(n: u32)
    ensures var s := LittleEndian(n); ((s[3] as int * 0x100 + s[2]) * 0x100 + s[1]) * 0x100 + s[0] == n
  {
    NetworkOrder(0, n, 0);
  }

  // ---------- Updates ----------

  datatype Parsed = Parsed(items: seq<Item>, used: nat) | Refused(error: Error)

  function Prepended(items: seq<Item>, used: nat, rest: Parsed): Parsed {
    if rest.Parsed? then Parsed(items + rest.items, used + rest.used) else rest
  }

  function ParseItems(s: seq<u8>, n: nat, rawBytes: nat): Parsed
    decreases n
  {
    if n == 0 then Parsed([], 0)
    else
      var first := ParseItem(s, rawBytes);
      if first.RefusedItem? then Refused(first.error)
      else
        ParsedItemIsEncoded(s, rawBytes);
        Prepended([first.item], first.used, ParseItems(s[first.used..], n - 1, rawBytes + RawBytesOf(first.item)))
  }

  /** The message after its type byte: a padding byte, the number of rectangles, and the rectangles. */
  function ParseUpdate(s: seq<u8>): Parsed {
    if |s| < 3 then Refused(Truncated)
    else if FromU16(s[1..3]) > MAX_RECTS_PER_UPDATE then Refused(TooManyRectangles)
    else Prepended([], 3, ParseItems(s[3..], FromU16(s[1..3]), 0))
  }

  predicate AllFit(items: seq<Item>, rawBytes: nat) {
    items != [] ==> Fits(items[0], rawBytes) && AllFit(items[1..], rawBytes + RawBytesOf(items[0]))
  }

  lemma FitsAnyway(item: Item, rawBytes: nat)
    requires Fits(item, rawBytes)
    ensures Fits(item, 0)
  {
  }

  function EncodedItems(items: seq<Item>, rawBytes: nat): seq<u8>
    requires AllFit(items, rawBytes)
    decreases items
  {
    if items == [] then []
    else
      FitsAnyway(items[0], rawBytes);
      EncodedItem(items[0]) + EncodedItems(items[1..], rawBytes + RawBytesOf(items[0]))
  }

  /** Whatever a list is read as, its bytes are the encoding of that. */
  lemma {:induction false} ParsedItemsAreEncoded(s: seq<u8>, n: nat, rawBytes: nat)
    requires ParseItems(s, n, rawBytes).Parsed?
    ensures var p := ParseItems(s, n, rawBytes);
            && |p.items| == n && p.used <= |s| && AllFit(p.items, rawBytes)
            && s[..p.used] == EncodedItems(p.items, rawBytes)
    decreases n
  {
    hide Fits, EncodedItem, ParseItem;
    if n > 0 {
      var first := ParseItem(s, rawBytes);
      ParsedItemIsEncoded(s, rawBytes);
      var rest := ParseItems(s[first.used..], n - 1, rawBytes + RawBytesOf(first.item));
      ParsedItemsAreEncoded(s[first.used..], n - 1, rawBytes + RawBytesOf(first.item));
      var items, used := [first.item] + rest.items, first.used + rest.used;
      assert items[1..] == rest.items;
      assert s[..used] == s[..first.used] + s[first.used..][..rest.used];
    }
  }

  lemma {:induction false} EncodedItemsParse(s: seq<u8>, rawBytes: nat, items: seq<Item>, used: nat)
    requires used <= |s| && AllFit(items, rawBytes) && s[..used] == EncodedItems(items, rawBytes)
    ensures ParseItems(s, |items|, rawBytes) == Parsed(items, used)
    decreases |items|
  {
    hide Fits, EncodedItem, ParseItem;
    if items != [] {
      EncodedPrefixParses(s, rawBytes, items, used);
      var width := |EncodedItem(items[0])|;
      EncodedItemsParse(s[width..], rawBytes + RawBytesOf(items[0]), items[1..], used - width);
      assert items == [items[0]] + items[1..];
    }
  }

  lemma ItemsAcceptedExactly(s: seq<u8>, n: nat, rawBytes: nat, items: seq<Item>, used: nat)
    ensures ParseItems(s, n, rawBytes) == Parsed(items, used) <==>
              && |items| == n && used <= |s| && AllFit(items, rawBytes) && s[..used] == EncodedItems(items, rawBytes)
  {
    hide AllFit, EncodedItems, ParseItems;
    if ParseItems(s, n, rawBytes).Parsed? {
      ParsedItemsAreEncoded(s, n, rawBytes);
    }
    if |items| == n && used <= |s| && AllFit(items, rawBytes) && s[..used] == EncodedItems(items, rawBytes) {
      EncodedItemsParse(s, rawBytes, items, used);
    }
  }

  lemma EncodedPrefixParses(s: seq<u8>, rawBytes: nat, items: seq<Item>, used: nat)
    requires items != [] && used <= |s| && AllFit(items, rawBytes) && s[..used] == EncodedItems(items, rawBytes)
    ensures Fits(items[0], 0)
    ensures ParseItem(s, rawBytes) == ParsedItem(items[0], |EncodedItem(items[0])|)
    ensures |EncodedItem(items[0])| <= used
    ensures s[|EncodedItem(items[0])|..][..used - |EncodedItem(items[0])|]
         == EncodedItems(items[1..], rawBytes + RawBytesOf(items[0]))
  {
    hide Fits, EncodedItem, ParseItem;
    FitsAnyway(items[0], rawBytes);
    var e := EncodedItem(items[0]);
    assert s == e + s[|e|..] by {
      assert s[..used] == e + EncodedItems(items[1..], rawBytes + RawBytesOf(items[0]));
      assert s == s[..used] + s[used..];
    }
    EncodedItemParses(items[0], rawBytes, s[|e|..]);
  }

  function EncodedUpdate(pad: u8, items: seq<Item>): seq<u8>
    requires AllFit(items, 0) && |items| <= MAX_RECTS_PER_UPDATE
  {
    [pad] + U16(|items|) + EncodedItems(items, 0)
  }

  /**
   An update is read as these rectangles from so many bytes exactly when those bytes encode them, padding
   aside, they are at most 4096 and every one is within the limits; in particular reading stops at the end
   of the message whatever follows.
   */
  lemma UpdateAcceptedExactly(s: seq<u8>, items: seq<Item>, used: nat)
    ensures ParseUpdate(s) == Parsed(items, used) <==>
              && 0 < used <= |s|
              && AllFit(items, 0) && |items| <= MAX_RECTS_PER_UPDATE
              && s[..used] == EncodedUpdate(s[0], items)
  {
    hide Fits, EncodedItem, ParseItem, ParseItems, EncodedItems, U16, FromU16, AllFit;
    if |s| >= 3 {
      U16Canonical(s[1..3]);
      if used >= 3 {
        ItemsAcceptedExactly(s[3..], FromU16(s[1..3]), 0, items, used - 3);
        assert used <= |s| ==> s[..used] == [s[0]] + s[1..3] + s[3..][..used - 3];
        if |items| <= MAX_RECTS_PER_UPDATE {
          U16RoundTrip(|items|);
        }
        if && 0 < used <= |s| && AllFit(items, 0) && |items| <= MAX_RECTS_PER_UPDATE
           && s[..used] == EncodedUpdate(s[0], items) {
          var e := EncodedUpdate(s[0], items);
          assert s[1..3] == e[1..3] == U16(|items|);
          assert s[3..][..used - 3] == e[3..] == EncodedItems(items, 0);
        }
      }
    }
  }

  function Drawn(items: seq<Item>): seq<RectOp> {
    if items == [] then []
    else if items[|items| - 1].Draw? then Drawn(items[..|items| - 1]) + [items[|items| - 1].op]
    else Drawn(items[..|items| - 1])
  }

  /** Every rectangle with pixels is drawn, in the order received; cursors and sizes are not. */
  lemma {:induction false} DrawnInOrder(a: seq<Item>, b: seq<Item>)
    ensures Drawn(a + b) == Drawn(a) + Drawn(b)
    ensures |b| == 1 ==> Drawn(b) == if b[0].Draw? then [b[0].op] else []
  {
    if b == [] {
      assert a + b == a;
    } else {
      var front := b[..|b| - 1];
      DrawnInOrder(a, front);
      assert (a + b)[..|a + b| - 1] == a + front;
    }
  }

  function TotalRawBytes(items: seq<Item>): nat {
    if items == [] then 0 else RawBytesOf(items[0]) + TotalRawBytes(items[1..])
  }

  lemma {:induction false} FittingItemsAreBounded(items: seq<Item>, rawBytes: nat, i: nat)
    requires AllFit(items, rawBytes) && rawBytes <= MAX_UPDATE_RAW_BYTES
    ensures rawBytes + TotalRawBytes(items) <= MAX_UPDATE_RAW_BYTES
    ensures i < |items| ==> Fits(items[i], 0)
    decreases |items|
  {
    if items != [] {
      FitsAnyway(items[0], rawBytes);
      FittingItemsAreBounded(items[1..], rawBytes + RawBytesOf(items[0]), if i == 0 then 0 else i - 1);
    }
  }

  lemma {:induction false} DrawnAreItems(items: seq<Item>, i: nat)
    requires i < |Drawn(items)|
    ensures Draw(Drawn(items)[i]) in items
  {
    if items != [] && i < |Drawn(items[..|items| - 1])| {
      DrawnAreItems(items[..|items| - 1], i);
    }
  }

  /**
   Whatever update is read, its raw data stays within the budget, and applying its rectangles never reaches
   outside the data or the buffer, for a buffer of any size.
   */
  lemma ParsedUpdatesApply(s: seq<u8>, width: nat, height: nat)
    requires ParseUpdate(s).Parsed?
    ensures var items := ParseUpdate(s).items;
            TotalRawBytes(items) <= MAX_UPDATE_RAW_BYTES && AllCover(width, height, Drawn(items))
  {
    hide ParseUpdate, EncodedUpdate, Covers;
    var p := ParseUpdate(s);
    UpdateAcceptedExactly(s, p.items, p.used);
    FittingItemsAreBounded(p.items, 0, 0);
    forall i | 0 <= i < |Drawn(p.items)|
      ensures Covers(width, height, Drawn(p.items)[i])
    {
      DrawnAreItems(p.items, i);
      var k :| 0 <= k < |p.items| && p.items[k] == Draw(Drawn(p.items)[i]);
      FittingItemsAreBounded(p.items, 0, k);
      FittingDataIsWhole(Drawn(p.items)[i]);
      WholeRowsCover(width, height, Drawn(p.items)[i]);
    }
  }

  lemma FittingDataIsWhole(op: RectOp)
    requires Fits(Draw(op), 0)
    ensures op.Raw? ==> |op.pixels| == Index(op.w, 0, op.h)
  {
    if op.Raw? {
      assert op.w * op.h == op.h * op.w + 0;
    }
  }

  // ---------- Reading from a connection ----------

  datatype Reply = Update(ops: seq<RectOp>) | Failed(error: Error)

  class RfbConn {
    const input: seq<u8>
    var at: nat

    ghost predicate Valid()
      reads this
    {
      at <= |input|
    }

    constructor (input: seq<u8>)
      ensures Valid() && this.input == input && at == 0
    {
      this.input, at := input, 0;
    }

    /** The next bytes, all or none: a short stream is an error. */
    method ReadVec(n: nat) returns (r: Option<seq<u8>>)
      requires Valid()
      modifies this
      ensures Valid()
      ensures n <= |input| - old(at) ==> r == Some(input[old(at)..old(at) + n]) && at == old(at) + n
      ensures n > |input| - old(at) ==> r == None
    {
      if n > |input| - at {
        at := |input|;
        return None;
      }
      r := Some(input[at..at + n]);
      at := at + n;
    }

    method ReadRectangle(rawBytes: nat) returns (r: ParsedItem)
      requires Valid()
      modifies this
      ensures Valid()
      ensures r == ParseItem(input[old(at)..], rawBytes)
      ensures r.ParsedItem? ==> at == old(at) + r.used
    {
      hide FromU16, FromU32, DecodedPixels, PixelCount;
      ghost var s := input[at..];
      var header := ReadVec(RECTANGLE_HEADER_BYTES);
      if header.None? {
        return RefusedItem(Truncated);
      }
      var b := header.value;
      assert b == s[..12];
      assert b[..2] == s[..2] && b[2..4] == s[2..4] && b[4..6] == s[4..6] && b[6..8] == s[6..8] && b[8..12] == s[8..12];
      var x, y, w, h := FromU16(b[..2]), FromU16(b[2..4]), FromU16(b[4..6]), FromU16(b[6..8]);
      if w == 0 {
        return RefusedItem(ZeroWidth);
      }
      if h == 0 {
        return RefusedItem(ZeroHeight);
      }
      r := ReadBody(x, y, w, h, FromU32(b[8..12]), rawBytes, s);
    }

    method ReadBody(x: u16, y: u16, w: u16, h: u16, encoding: u32, rawBytes: nat, ghost s: seq<u8>)
      returns (r: ParsedItem)
      requires Valid() && at >= 12 && s == input[at - 12..]
      modifies this
      ensures Valid()
      ensures r == ParseBody(s, x, y, w, h, encoding, rawBytes)
      ensures r.ParsedItem? ==> at == old(at) - 12 + r.used
    {
      hide FromU16, FromU32, DecodedPixels, PixelCount;
      if encoding == RAW {
        var count := PixelCount(w, h);
        if count > MAX_FRAMEBUFFER_PIXELS {
          return RefusedItem(RectangleTooLarge);
        }
        if rawBytes + count * BYTES_PER_PIXEL > MAX_UPDATE_RAW_BYTES {
          return RefusedItem(OverRawBudget);
        }
        var raw := ReadVec(count * BYTES_PER_PIXEL);
        if raw.None? {
          return RefusedItem(Truncated);
        }
        assert raw.value == s[12..12 + count * BYTES_PER_PIXEL];
        // The number of bytes read is a multiple of the pixel width, so decoding neither fails nor falls short.
        var pixels := DecodeRawPixels(raw.value);
        return ParsedItem(Draw(Raw(x, y, w, h, pixels.value)), 12 + count * BYTES_PER_PIXEL);
      }
      if encoding == COPYRECT {
        if PixelCount(w, h) > MAX_FRAMEBUFFER_PIXELS {
          return RefusedItem(RectangleTooLarge);
        }
        var sx := ReadVec(2);
        if sx.None? {
          return RefusedItem(Truncated);
        }
        assert sx.value == s[12..14];
        var sy := ReadVec(2);
        if sy.None? {
          return RefusedItem(Truncated);
        }
        assert sy.value == s[14..16];
        return ParsedItem(Draw(Copy(x, y, w, h, FromU16(sx.value), FromU16(sy.value))), 16);
      }
      if encoding == MVS {
        return RefusedItem(MvsInStream);
      }
      if encoding == CURSOR {
        r := ReadCursor(x, y, w, h, s);
        return;
      }
      if APPLE_STATE_MIN <= encoding <= APPLE_STATE_MAX {
        return RefusedItem(AppleState);
      }
      return RefusedItem(UnknownEncoding);
    }

    method ReadCursor(x: u16, y: u16, w: u16, h: u16, ghost s: seq<u8>) returns (r: ParsedItem)
      requires Valid() && at >= 12 && s == input[at - 12..]
      modifies this
      ensures Valid()
      ensures r == ParseBody(s, x, y, w, h, CURSOR, 0)
      ensures r.ParsedItem? ==> at == old(at) - 12 + r.used
    {
      hide FromU16, FromU32, DecodedPixels, PixelCount;
      var magic := ReadVec(4);
      if magic.None? {
        return RefusedItem(Truncated);
      }
      assert magic.value == s[12..16];
      if FromU32(magic.value) != CURSOR_MAGIC {
        return RefusedItem(WrongCursorMagic);
      }
      var length := ReadVec(4);
      if length.None? {
        return RefusedItem(Truncated);
      }
      assert length.value == s[16..20];
      var n := FromU32(length.value);
      if n > MAX_CURSOR_BYTES {
        return RefusedItem(CursorTooLarge);
      }
      var payload := ReadVec(n);
      if payload.None? {
        return RefusedItem(Truncated);
      }
      assert payload.value == s[20..20 + n];
      return ParsedItem(Cursor(x, y, w, h, payload.value), 20 + n);
    }

    /** The rest of a FramebufferUpdate, after its type byte. Cursor payloads are read and dropped. */
    method ReadFramebufferUpdate() returns (reply: Reply)
      requires Valid()
      modifies this
      ensures Valid()
      ensures match ParseUpdate(input[old(at)..])
              case Parsed(items, used) => reply == Update(Drawn(items)) && at == old(at) + used
              case Refused(error) => reply == Failed(error)
    {
      hide FromU16, ParseItem, ParseItems, Drawn;
      ghost var s := input[at..];
      var pad := ReadVec(1);
      if pad.None? {
        return Failed(Truncated);
      }
      var count := ReadVec(2);
      if count.None? {
        return Failed(Truncated);
      }
      assert count.value == s[1..3];
      var n := FromU16(count.value);
      if n > MAX_RECTS_PER_UPDATE {
        return Failed(TooManyRectangles);
      }
      ghost var items: seq<Item> := [];
      var ops: seq<RectOp> := [];
      var updateRawBytes: nat := 0;
      assert s[3..] == input[at..];
      NothingDrawn();
      for i := 0 to n
        invariant Valid() && at >= old(at) + 3 && ops == Drawn(items)
        invariant ParseUpdate(s) == Prepended(items, at - old(at), ParseItems(input[at..], n - i, updateRawBytes))
      {
        ItemsAdvance(items, at - old(at), input[at..], n - i, updateRawBytes);
        ghost var before := at;
        var r := ReadRectangle(updateRawBytes);
        if r.RefusedItem? {
          return Failed(r.error);
        }
        assert input[before..][r.used..] == input[at..];
        items := items + [r.item];
        DrawnSnoc(items);
        updateRawBytes := updateRawBytes + RawBytesOf(r.item);
        if r.item.Draw? {
          ops := ops + [r.item.op];
        }
      }
      NoItemsLeft(input[at..], updateRawBytes);
      assert items + [] == items;
      return Update(ops);
    }
  }

  lemma ItemsAdvance(items: seq<Item>, used: nat, s: seq<u8>, n: nat, rawBytes: nat)
    requires n > 0
    ensures var first := ParseItem(s, rawBytes);
            if first.RefusedItem? then ParseItems(s, n, rawBytes) == Refused(first.error)
            else
              && first.used <= |s|
              && Prepended(items, used, ParseItems(s, n, rawBytes)) ==
                 Prepended(items + [first.item], used + first.used,
                           ParseItems(s[first.used..], n - 1, rawBytes + RawBytesOf(first.item)))
  {
    hide ParseItem, Fits, EncodedItem;
    var first := ParseItem(s, rawBytes);
    if first.ParsedItem? {
      ParsedItemIsEncoded(s, rawBytes);
      var rest := ParseItems(s[first.used..], n - 1, rawBytes + RawBytesOf(first.item));
      if rest.Parsed? {
        assert items + ([first.item] + rest.items) == (items + [first.item]) + rest.items;
      }
    }
  }

  lemma NoItemsLeft(s: seq<u8>, rawBytes: nat)
    ensures ParseItems(s, 0, rawBytes) == Parsed([], 0)
  {
  }

  lemma NothingDrawn()
    ensures Drawn([]) == []
  {
  }

  lemma DrawnSnoc(items: seq<Item>)
    requires items != []
    ensures Drawn(items) == Drawn(items[..|items| - 1])
                            + (if items[|items| - 1].Draw? then [items[|items| - 1].op] else [])
  {
  }
}
