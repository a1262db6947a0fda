/** The WebSocket framing of ios/TestHarness/mock_gateway.py, as laid out in section 5.2 of RFC 6455. */
module Frames {
  import opened Octets

  type Bytes = seq<bv8>

  // ---------- big-endian numbers: struct.pack(">H") and (">Q") ----------

  const TWO16: nat := 0x1_0000
  const TWO64: nat := 0x1_0000_0000_0000_0000

  function Pow256(k: nat): nat {
    if k == 0 then 1 else 256 * Pow256(k - 1)
  }

  function BigEndian(n: nat, k: nat): (bs: Bytes)
    ensures |bs| == k
  {
    if k == 0 then [] else BigEndian(n / 256, k - 1) + [(n % 256) as bv8]
  }

  function FromBigEndian(bs: Bytes): nat {
    if bs == [] then 0 else FromBigEndian(bs[..|bs| - 1]) * 256 + bs[|bs| - 1] as nat
  }

  lemma {:induction false} UnpackPack(n: nat, k: nat)
    requires n < Pow256(k)
    ensures FromBigEndian(BigEndian(n, k)) == n
  {
    if k > 0 {
      UnpackPack(n / 256, k - 1);
      ByteOfNat(n % 256);
      assert BigEndian(n, k)[..k - 1] == BigEndian(n / 256, k - 1);
    }
  }

  lemma DigitSplits(a: nat, d: nat)
    requires d < 256
    ensures (a * 256 + d) / 256 == a && (a * 256 + d) % 256 == d
  {
  }

  lemma PackDigit(a: nat, d: bv8, k: nat)
    requires a < Pow256(k)
    ensures a * 256 + d as nat < Pow256(k + 1) && BigEndian(a * 256 + d as nat, k + 1) == BigEndian(a, k) + [d]
  {
    hide Pow256;
    NatOfByte(d);
    DigitSplits(a, d as nat);
    DigitBelow(a, d as nat, k);
  }

  lemma DigitBelow(a: nat, d: nat, k: nat)
    requires a < Pow256(k) && d < 256
    ensures a * 256 + d < Pow256(k + 1)
  {
  }

  lemma {:induction false} PackUnpack(bs: Bytes)
    ensures FromBigEndian(bs) < Pow256(|bs|) && BigEndian(FromBigEndian(bs), |bs|) == bs
  {
    hide Pow256, BigEndian;
    if bs == [] {
      NothingPacked();
    } else {
      var init, last := bs[..|bs| - 1], bs[|bs| - 1];
      PackUnpack(init);
      PackDigit(FromBigEndian(init), last, |init|);
      assert bs == init + [last];
    }
  }

  lemma NothingPacked()
    ensures 0 < Pow256(0) && BigEndian(0, 0) == []
  {
  }

  /** The first byte is the most significant one. */
  lemma {:induction false} MostSignificantFirst(d: bv8, bs: Bytes)
    ensures FromBigEndian([d] + bs) == d as nat * Pow256(|bs|) + FromBigEndian(bs)
  {
    if bs == [] {
      assert [d] + bs == [d] && [d][..0] == [];
    } else {
      var init, last := bs[..|bs| - 1], bs[|bs| - 1];
      MostSignificantFirst(d, init);
      assert ([d] + bs)[..|bs|] == [d] + init;
      Shifted(d as nat, Pow256(|init|), FromBigEndian(init), last as nat);
    }
  }

  lemma Shifted(d: nat, p: nat, a: nat, last: nat)
    ensures (d * p + a) * 256 + last == d * (256 * p) + (a * 256 + last)
  {
  }

  lemma Widths()
    ensures Pow256(2) == TWO16 && Pow256(8) == TWO64
  {
    assert Pow256(4) == 0x1_0000_0000;
  }

  /** The second header byte: a seven-bit field under the mask flag. */
  function FieldByte(field: nat, masked: bool): bv8
    requires field < 128
  {
    if masked then 0x80 | (field as bv8) else field as bv8
  }

  function Field(b: bv8): nat {
    (b & 0x7F) as nat
  }

  predicate IsMasked(b: bv8) {
    b & 0x80 != 0
  }

  function Opcode(b: bv8): bv8 {
    b & 0x0F
  }

  lemma FieldByteReads(field: nat, masked: bool)
    requires field < 128
    ensures IsMasked(FieldByte(field, masked)) == masked && Field(FieldByte(field, masked)) == field
  {
    ByteOfNat(field);
    assert field as bv8 < 128;
  }

  lemma FieldByteWrites(b: bv8)
    ensures Field(b) < 128 && b == FieldByte(Field(b), IsMasked(b))
  {
    NatOfByte(b & 0x7F);
    assert b & 0x7F < 128;
  }

  // ---------- frames ----------

  /** The three ways a header can give the payload length: in 7 bits, in 16, or in 64. */
  datatype Form = Short | Medium | Long

  function Capacity(f: Form): nat {
    match f case Short => 126 case Medium => TWO16 case Long => TWO64
  }

  function LengthBytes(f: Form): nat {
    match f case Short => 0 case Medium => 2 case Long => 8
  }

  /** The low seven bits of the second header byte. */
  function LengthField(f: Form, length: nat): nat {
    match f case Short => length case Medium => 126 case Long => 127
  }

  function Mask(data: Bytes, key: Bytes): (r: Bytes)
    requires |key| == 4
    ensures |r| == |data| && forall i :: 0 <= i < |data| ==> r[i] == data[i] ^ key[i % 4]
  {
    seq(|data|, i requires 0 <= i < |data| => data[i] ^ key[i % 4])
  }

  lemma MaskTwice(data: Bytes, key: Bytes)
    requires |key| == 4
    ensures Mask(Mask(data, key), key) == data
  {
    forall i | 0 <= i < |data|
      ensures (data[i] ^ key[i % 4]) ^ key[i % 4] == data[i]
    {
      XorTwice(data[i], key[i % 4]);
    }
  }

  lemma XorTwice(a: bv8, k: bv8)
    ensures (a ^ k) ^ k == a
  {
  }

  /** A frame on the wire: first byte, length form, an optional four-byte masking key, and the payload. */
  datatype Wire = Wire(first: bv8, form: Form, key: Bytes, payload: Bytes) {
    predicate Valid() {
      |payload| < Capacity(form) && (key == [] || |key| == 4)
    }

    function Header(): Bytes
      requires Valid()
    {
      [first, FieldByte(LengthField(form, |payload|), key != [])] + BigEndian(|payload|, LengthBytes(form)) + key
    }

    function Encoding(): Bytes
      requires Valid()
    {
      Header() + if key == [] then payload else Mask(payload, key)
    }
  }

  // ---------- the encoders ----------

  function MinimalForm(length: nat): Form {
    if length < 126 then Short else if length < TWO16 then Medium else Long
  }

  /** An unmasked, final text frame in the shortest length form. */
  function TextFrame(payload: Bytes): Wire {
    Wire(0x81, MinimalForm(|payload|), [], payload)
  }

  datatype Encoded = Encoded(bytes: Bytes) | TooLong

  /** `struct.pack(">Q")` refuses a length of 2^64 or more. */
  method EncodeTextFrame(payload: Bytes) returns (r: Encoded)
    ensures r == if |payload| < TWO64 then Encoded(TextFrame(payload).Encoding()) else TooLong
    ensures r.Encoded? ==> r.bytes[0] == 0x81 && Parse(r.bytes) == (Frame(0x1, payload), [])
  {
    hide Parse, Mask;
    var header := [0x81];
    var length := |payload|;
    if length < 126 {
      header := header + [length as bv8];
    } else if length < 65536 {
      header := header + [126];
      header := header + BigEndian(length, 2);
    } else {
      if length >= TWO64 {
        return TooLong;
      }
      header := header + [127];
      header := header + BigEndian(length, 8);
    }
    r := Encoded(header + payload);
    TextFrameReads(payload);
  }

  /** `bytearray` refuses a length that is not a byte. */
  function EncodeControlFrame(opcode: bv8, payload: Bytes): Encoded {
    if |payload| < 256 then Encoded([0x80 | opcode, |payload| as bv8] + payload) else TooLong
  }

  // ---------- the decoder ----------

  datatype Read = Frame(opcode: bv8, data: Bytes) | Eof | Incomplete

  datatype LengthRead = Length(length: nat) | NoLength

  /** The payload length announced by the low seven bits `field`, and what follows it in `bytes`. */
  function ParseLength(field: nat, bytes: Bytes): (LengthRead, Bytes) {
    var ext := if field == 126 then 2 else if field == 127 then 8 else 0;
    if |bytes| < ext then (NoLength, [])
    else (Length(if ext == 0 then field else FromBigEndian(bytes[..ext])), bytes[ext..])
  }

  function ParsePayload(opcode: bv8, masked: bool, length: nat, bytes: Bytes): (Read, Bytes) {
    var k := if masked then 4 else 0;
    if |bytes| < k + length then (Incomplete, [])
    else
      var data := if masked then Mask(bytes[4..][..length], bytes[..4]) else bytes[..length];
      (Frame(opcode, data), bytes[k..][length..])
  }

  /** What reading one frame off the front of `bytes` yields, and what is left. */
  function Parse(bytes: Bytes): (Read, Bytes) {
    if |bytes| < 2 then (Eof, []) else
    var (l, rest) := ParseLength(Field(bytes[1]), bytes[2..]);
    if l.NoLength? then (Incomplete, []) else ParsePayload(Opcode(bytes[0]), IsMasked(bytes[1]), l.length, rest)
  }

  /** The unread bytes of a connection, up to end of file. */
  class StreamReader {
    var pending: Bytes

    constructor (bytes: Bytes)
      ensures pending == bytes
    {
      pending := bytes;
    }

    /** `readexactly`: on end of file the partial data is consumed and lost. */
    method ReadExactly(n: nat) returns (ok: bool, bytes: Bytes)
      modifies this
      ensures ok <==> n <= |old(pending)|
      ensures ok ==> bytes == old(pending)[..n] && pending == old(pending)[n..]
      ensures !ok ==> pending == []
    {
      ok := n <= |pending|;
      if ok {
        bytes, pending := pending[..n], pending[n..];
      } else {
        bytes, pending := [], [];
      }
    }

    method ReadLength(field: nat) returns (l: LengthRead)
      modifies this
      ensures l == ParseLength(field, old(pending)).0 && pending == ParseLength(field, old(pending)).1
    {
      hide FromBigEndian;
      var ok, ext := true, [];
      if field == 126 {
        ok, ext := ReadExactly(2);
      } else if field == 127 {
        ok, ext := ReadExactly(8);
      } else {
        return Length(field);
      }
      l := if ok then Length(FromBigEndian(ext)) else NoLength;
    }

    method ReadPayload(opcode: bv8, masked: bool, length: nat) returns (r: Read)
      modifies this
      ensures (r, pending) == ParsePayload(opcode, masked, length, old(pending))
    {
      hide Mask;
      ghost var all := pending;
      var ok, mask, data := true, [0, 0, 0, 0], [];
      if masked {
        ok, mask := ReadExactly(4);
        if !ok {
          return Incomplete;
        }
      }
      if length != 0 {
        ok, data := ReadExactly(length);
        if !ok {
          return Incomplete;
        }
      }
      if masked {
        data := Mask(data, mask);
      }
      r := Frame(opcode, data);
    }

    /** `read_frame`: only a missing header reads as end of file, any other shortage is an error. */
    method ReadFrame() returns (r: Read)
      modifies this
      ensures (r, pending) == Parse(old(pending))
    {
      hide ParsePayload, Field, IsMasked, Opcode;
      var ok, b := ReadExactly(2);
      if !ok {
        return Eof;
      }
      var length := ReadLength(Field(b[1]));
      if length.NoLength? {
        return Incomplete;
      }
      r := ReadPayload(Opcode(b[0]), IsMasked(b[1]), length.length);
    }
  }

  // ---------- the decoder inverts the encoder, and only the encoder ----------

  lemma CapacityFits(f: Form)
    ensures f != Short ==> Capacity(f) == Pow256(LengthBytes(f))
  {
    Widths();
  }

  lemma LengthRoundTrip(f: Form, length: nat, tail: Bytes)
    requires length < Capacity(f)
    ensures LengthField(f, length) < 128
    ensures ParseLength(LengthField(f, length), BigEndian(length, LengthBytes(f)) + tail) == (Length(length), tail)
  {
    var ext := BigEndian(length, LengthBytes(f));
    CapacityFits(f);
    if f != Short {
      UnpackPack(length, LengthBytes(f));
    }
    assert (ext + tail)[..|ext|] == ext && (ext + tail)[|ext|..] == tail;
  }

  lemma ThreeParts(a: Bytes, b: Bytes, c: Bytes)
    ensures (a + b + c)[..|a|] == a
    ensures (a + b + c)[|a|..][..|b|] == b && (a + b + c)[|a|..][|b|..] == c
  {
    assert (a + b + c)[|a|..] == b + c;
  }

  lemma PayloadRoundTrip(opcode: bv8, key: Bytes, payload: Bytes, tail: Bytes)
    requires key == [] || |key| == 4
    ensures ParsePayload(opcode, key != [], |payload|, key + (if key == [] then payload else Mask(payload, key)) + tail)
            == (Frame(opcode, payload), tail)
  {
    hide Mask;
    var body := if key == [] then payload else Mask(payload, key);
    MaskLength(payload, key);
    ThreeParts(key, body, tail);
    if key != [] {
      MaskTwice(payload, key);
    }
  }

  lemma MaskLength(data: Bytes, key: Bytes)
    ensures |key| == 4 ==> |Mask(data, key)| == |data|
  {
  }

  function Body(w: Wire): Bytes
    requires w.Valid()
  {
    if w.key == [] then w.payload else Mask(w.payload, w.key)
  }

  lemma HeaderReads(w: Wire, tail: Bytes)
    requires w.Valid()
    ensures var bytes := w.Encoding() + tail;
      && |bytes| >= 2 && bytes[0] == w.first
      && Field(bytes[1]) == LengthField(w.form, |w.payload|)
      && (IsMasked(bytes[1]) <==> w.key != [])
      && bytes[2..] == BigEndian(|w.payload|, LengthBytes(w.form)) + (w.key + Body(w) + tail)
  {
    hide Mask, BigEndian, FieldByte, Field, IsMasked, Body;
    EncodingParts(w, tail);
    FieldByteReads(LengthField(w.form, |w.payload|), w.key != []);
  }

  /** Any well-formed frame, masked or not and in any length form, reads back as its payload and nothing more. */
  lemma ParseEncoding(w: Wire, tail: Bytes)
    requires w.Valid()
    ensures Parse(w.Encoding() + tail) == (Frame(Opcode(w.first), w.payload), tail)
  {
    hide ParseLength, ParsePayload, Mask, BigEndian;
    HeaderReads(w, tail);
    LengthRoundTrip(w.form, |w.payload|, w.key + Body(w) + tail);
    PayloadRoundTrip(Opcode(w.first), w.key, w.payload, tail);
  }

  // ---------- the converse ----------

  lemma LengthWrites(field: nat, bytes: Bytes) returns (form: Form)
    requires field < 128 && ParseLength(field, bytes).0.Length?
    ensures var (l, rest) := ParseLength(field, bytes);
      && l.length < Capacity(form) && LengthField(form, l.length) == field
      && bytes == BigEndian(l.length, LengthBytes(form)) + rest
  {
    hide FromBigEndian, BigEndian;
    form := if field == 126 then Medium else if field == 127 then Long else Short;
    var ext := LengthBytes(form);
    CapacityFits(form);
    PackUnpack(bytes[..ext]);
    assert bytes == bytes[..ext] + bytes[ext..];
    if form == Short {
      NoBytes(field);
    }
  }

  lemma NoBytes(n: nat)
    ensures BigEndian(n, 0) == []
  {
  }

  lemma PayloadWrites(opcode: bv8, masked: bool, length: nat, bytes: Bytes) returns (key: Bytes)
    requires ParsePayload(opcode, masked, length, bytes).0.Frame?
    ensures (key == [] || |key| == 4) && (masked <==> key != [])
    ensures var (r, rest) := ParsePayload(opcode, masked, length, bytes);
      && r.opcode == opcode && |r.data| == length
      && bytes == key + (if key == [] then r.data else Mask(r.data, key)) + rest
  {
    hide Mask;
    key := if masked then bytes[..4] else [];
    var raw := bytes[|key|..][..length];
    assert bytes == key + raw + bytes[|key|..][length..];
    MaskLength(raw, key);
    if masked {
      MaskTwice(raw, key);
    }
  }

  lemma ParseSteps(bytes: Bytes)
    requires Parse(bytes).0.Frame?
    ensures |bytes| >= 2
    ensures var field, masked := Field(bytes[1]), IsMasked(bytes[1]);
      var (l, rest) := ParseLength(field, bytes[2..]);
      l.Length? && Parse(bytes) == ParsePayload(Opcode(bytes[0]), masked, l.length, rest)
  {
    hide ParseLength, ParsePayload, Field, IsMasked, Opcode;
    var (l, rest) := ParseLength(Field(bytes[1]), bytes[2..]);
  }

  /** Whatever reads as a frame is the encoding of some well-formed frame with that payload. */
  lemma ParsedIsEncoding(bytes: Bytes) returns (w: Wire)
    requires Parse(bytes).0.Frame?
    ensures w.Valid() && bytes == w.Encoding() + Parse(bytes).1
    ensures Parse(bytes).0 == Frame(Opcode(w.first), w.payload)
  {
    hide Parse, ParseLength, ParsePayload, BigEndian, Mask, FieldByte, Field, IsMasked, Opcode;
    hide LengthField, LengthBytes, Capacity, Wire.Encoding;
    ParseSteps(bytes);
    FieldByteWrites(bytes[1]);
    var field, masked := Field(bytes[1]), IsMasked(bytes[1]);
    var (l, rest) := ParseLength(field, bytes[2..]);
    var form := LengthWrites(field, bytes[2..]);
    var key := PayloadWrites(Opcode(bytes[0]), masked, l.length, rest);
    w := Wire(bytes[0], form, key, Parse(bytes).0.data);
    EncodingParts(w, Parse(bytes).1);
    FrontTwo(bytes);
  }

  lemma FrontTwo(bytes: Bytes)
    requires |bytes| >= 2
    ensures bytes == [bytes[0], bytes[1]] + bytes[2..]
  {
  }

  lemma EncodingParts(w: Wire, tail: Bytes)
    requires w.Valid()
    ensures w.Encoding() + tail
            == [w.first, FieldByte(LengthField(w.form, |w.payload|), w.key != [])]
            + (BigEndian(|w.payload|, LengthBytes(w.form)) + (w.key + Body(w) + tail))
  {
    hide FieldByte, BigEndian, Mask;
  }

  /** No frame that reads as this payload is shorter than the one `encode_text_frame` builds. */
  lemma TextFrameIsShortest(payload: Bytes, bytes: Bytes)
    requires Parse(bytes).0.Frame? && Parse(bytes).0.data == payload
    ensures TextFrame(payload).Valid() && |TextFrame(payload).Encoding()| <= |bytes|
  {
    var w := ParsedIsEncoding(bytes);
    EncodingLength(w);
    EncodingLength(TextFrame(payload));
  }

  lemma EncodingLength(w: Wire)
    requires w.Valid()
    ensures |w.Encoding()| == 2 + LengthBytes(w.form) + |w.key| + |w.payload|
  {
  }

  // ---------- streams of frames ----------

  function Concat(ws: seq<Wire>): Bytes
    requires forall w :: w in ws ==> w.Valid()
  {
    if ws == [] then [] else ws[0].Encoding() + Concat(ws[1..])
  }

  lemma ParseShrinks(bytes: Bytes)
    ensures Parse(bytes).0.Frame? ==> |Parse(bytes).1| < |bytes|
  {
    hide FromBigEndian, Mask;
  }

  /** Reading frame by frame until end of file or a broken frame. */
  function ParseAll(bytes: Bytes): seq<Read>
    decreases |bytes|
  {
    ParseShrinks(bytes);
    var (r, rest) := Parse(bytes);
    if r.Frame? then [r] + ParseAll(rest) else [r]
  }

  function Reads(ws: seq<Wire>): seq<Read> {
    if ws == [] then [Eof] else [Frame(Opcode(ws[0].first), ws[0].payload)] + Reads(ws[1..])
  }

  /** The frames written to a stream are read back one by one, in order, and end exactly at end of file. */
  lemma {:induction false} StreamRoundTrip(ws: seq<Wire>)
    requires forall w :: w in ws ==> w.Valid()
    ensures ParseAll(Concat(ws)) == Reads(ws)
  {
    hide Parse;
    if ws == [] {
      EofAtEnd();
    } else {
      ParseEncoding(ws[0], Concat(ws[1..]));
      StreamRoundTrip(ws[1..]);
    }
  }

  lemma EofAtEnd()
    ensures Parse([]) == (Eof, [])
  {
  }

  lemma ControlFrameIsWire(opcode: bv8, payload: Bytes)
    requires |payload| <= 125
    ensures EncodeControlFrame(opcode, payload) == Encoded(Wire(0x80 | opcode, Short, [], payload).Encoding())
  {
    NoBytes(|payload|);
  }

  /** A text frame is final and unmasked, carries opcode 1, and reads back as its payload. */
  lemma TextFrameReads(payload: Bytes)
    requires |payload| < TWO64
    ensures var bytes := TextFrame(payload).Encoding();
      |bytes| >= 2 && bytes[0] == 0x81 && !IsMasked(bytes[1]) && Parse(bytes) == (Frame(0x1, payload), [])
  {
    hide Parse, BigEndian, FieldByte;
    var w := TextFrame(payload);
    FieldByteReads(LengthField(w.form, |payload|), false);
    ParseEncoding(w, []);
    assert w.Encoding() + [] == w.Encoding();
  }

  /** Control frames are final. */
  lemma ControlFrameIsFinal(opcode: bv8, payload: Bytes)
    requires opcode < 16 && EncodeControlFrame(opcode, payload).Encoded?
    ensures var bytes := EncodeControlFrame(opcode, payload).bytes;
      bytes[0] & 0xF0 == 0x80 && Opcode(bytes[0]) == opcode && bytes[2..] == payload
  {
    ControlBits(opcode);
    FinalBits(opcode);
  }

  lemma FinalBits(opcode: bv8)
    requires opcode < 16
    ensures (0x80 | opcode) & 0xF0 == 0x80
  {
  }

  /** A control frame survives the trip exactly when its payload is within the limit of section 5.5 of RFC 6455. */
  lemma ControlFrameRoundTripIff(opcode: bv8, payload: Bytes)
    requires opcode < 16
    ensures (EncodeControlFrame(opcode, payload).Encoded?
             && Parse(EncodeControlFrame(opcode, payload).bytes) == (Frame(opcode, payload), []))
            <==> |payload| <= 125
  {
    hide Parse, Opcode, Wire.Encoding;
    if |payload| <= 125 {
      var w := Wire(0x80 | opcode, Short, [], payload);
      ControlBits(opcode);
      ControlFrameIsWire(opcode, payload);
      ParseEncoding(w, []);
      assert w.Encoding() + [] == w.Encoding();
    } else if |payload| < 256 {
      var bytes := EncodeControlFrame(opcode, payload).bytes;
      if Parse(bytes) == (Frame(opcode, payload), []) {
        TextFrameIsShortest(payload, bytes);
        EncodingLength(TextFrame(payload));
        assert false;
      }
    }
  }

  lemma ControlBits(opcode: bv8)
    requires opcode < 16
    ensures Opcode(0x80 | opcode) == opcode
  {
  }

  // ---------- what the decoder refuses ----------

  /** `read_frame` returns None exactly when not even a header is left. */
  lemma EofIffNoHeader(bytes: Bytes)
    ensures Parse(bytes).0.Eof? <==> |bytes| < 2
  {
    hide FromBigEndian, Mask, Field, IsMasked, Opcode;
  }

  /** It raises exactly on a header that starts some frame the bytes do not complete. */
  lemma IncompleteIffTruncated(bytes: Bytes)
    ensures Parse(bytes).0.Incomplete?
            <==> |bytes| >= 2 && exists w: Wire :: w.Valid() && bytes < w.Encoding()
  {
    hide Parse, Wire.Encoding, Wire.Valid;
    EofIffNoHeader(bytes);
    if Parse(bytes).0.Incomplete? {
      var w := Completion(bytes);
    }
    forall w: Wire | w.Valid() && bytes < w.Encoding()
      ensures !Parse(bytes).0.Frame?
    {
      if Parse(bytes).0.Frame? {
        WholeFrameIsNoPrefix(bytes, w);
        assert false;
      }
    }
  }

  lemma WholeFrameIsNoPrefix(bytes: Bytes, w: Wire)
    requires w.Valid() && Parse(bytes).0.Frame? && bytes <= w.Encoding()
    ensures bytes == w.Encoding()
  {
    hide Parse, Wire.Encoding, Wire.Valid;
    var v := ParsedIsEncoding(bytes);
    var tail := w.Encoding()[|bytes|..];
    assert w.Encoding() == v.Encoding() + (Parse(bytes).1 + tail);
    ParseEncoding(v, Parse(bytes).1 + tail);
    assert w.Encoding() + [] == w.Encoding();
    ParseEncoding(w, []);
  }

  function Zeros(n: nat): Bytes {
    seq(n, i => 0)
  }

  lemma SomeLength(field: nat, bytes: Bytes) returns (pad: nat)
    ensures ParseLength(field, bytes + Zeros(pad)).0.Length?
    ensures ParseLength(field, bytes).0.Length? ==> pad == 0
  {
    hide FromBigEndian;
    pad := if ParseLength(field, bytes).0.Length? then 0 else 8;
    assert bytes + Zeros(0) == bytes;
  }

  lemma LengthThenMore(field: nat, bytes: Bytes, more: Bytes)
    requires ParseLength(field, bytes).0.Length?
    ensures ParseLength(field, bytes + more) == (ParseLength(field, bytes).0, ParseLength(field, bytes).1 + more)
  {
    hide FromBigEndian;
    var ext := if field == 126 then 2 else if field == 127 then 8 else 0;
    assert (bytes + more)[..ext] == bytes[..ext] && (bytes + more)[ext..] == bytes[ext..] + more;
  }

  lemma SomePayload(opcode: bv8, masked: bool, length: nat, bytes: Bytes) returns (pad: nat)
    ensures ParsePayload(opcode, masked, length, bytes + Zeros(pad)).0.Frame?
    ensures ParsePayload(opcode, masked, length, bytes).0.Frame? ==> pad == 0
  {
    hide Mask;
    pad := if ParsePayload(opcode, masked, length, bytes).0.Frame? then 0 else length + 4;
    assert bytes + Zeros(0) == bytes;
  }

  /** A frame that zero bytes would complete `bytes` to. */
  lemma Completion(bytes: Bytes) returns (w: Wire)
    requires Parse(bytes).0.Incomplete?
    ensures w.Valid() && bytes < w.Encoding()
  {
    hide Parse, ParseLength, ParsePayload, Zeros, Wire.Encoding, Wire.Valid;
    IncompleteHasHeader(bytes);
    var field, masked, opcode := Field(bytes[1]), IsMasked(bytes[1]), Opcode(bytes[0]);
    var pad := SomeLength(field, bytes[2..]);
    var (l, rest) := ParseLength(field, bytes[2..] + Zeros(pad));
    var pad' := SomePayload(opcode, masked, l.length, rest);
    LengthThenMore(field, bytes[2..] + Zeros(pad), Zeros(pad'));
    var more := Zeros(pad) + Zeros(pad');
    assert (bytes + more)[2..] == bytes[2..] + Zeros(pad) + Zeros(pad');
    ParseFromSteps(bytes + more);
    w := ParsedIsEncoding(bytes + more);
    NotAlreadyWhole(bytes, more, w, Parse(bytes + more).1);
  }

  lemma IncompleteHasHeader(bytes: Bytes)
    requires Parse(bytes).0.Incomplete?
    ensures |bytes| >= 2
  {
    hide ParseLength, ParsePayload;
  }

  lemma ParseFromSteps(bytes: Bytes)
    requires |bytes| >= 2 && ParseLength(Field(bytes[1]), bytes[2..]).0.Length?
    ensures var (l, rest) := ParseLength(Field(bytes[1]), bytes[2..]);
      Parse(bytes) == ParsePayload(Opcode(bytes[0]), IsMasked(bytes[1]), l.length, rest)
  {
    hide ParseLength, ParsePayload, Field, IsMasked, Opcode;
  }

  lemma NotAlreadyWhole(bytes: Bytes, more: Bytes, w: Wire, rest: Bytes)
    requires Parse(bytes).0.Incomplete? && w.Valid() && bytes + more == w.Encoding() + rest
    ensures bytes < w.Encoding()
  {
    hide Parse, Wire.Encoding, Wire.Valid;
    var e := w.Encoding();
    if |e| <= |bytes| {
      assert bytes == e + bytes[|e|..] by {
        assert bytes[..|e|] == (bytes + more)[..|e|] == (e + rest)[..|e|] == e;
      }
      ParseEncoding(w, bytes[|e|..]);
      assert false;
    }
    assert bytes == (bytes + more)[..|bytes|] == (e + rest)[..|bytes|] == e[..|bytes|];
  }
}
