/** The command messages the engine sends to the secure element, as records
    of fields, together with their view as a sequence of 32-bit words (the
    view the check word is computed over) and the decoding of that view.

    The C structs and `she_fill_cmd_msg_hdr` are declared in headers that
    are not part of this model: the field lists and their order follow the
    assignments in she_lib.c, and the packing of sub-word fields and of the
    header word is this model's own (little-endian, header = command byte
    and size-in-words byte). */
module Messages {
  import opened Base

  // Command identifiers (the AHAB_SHE_* opcodes). Placeholder values:
  // only their distinctness is relied upon.
  const InitCmd: bv8 := 0x30
  const GenerateMacCmd: bv8 := 0x31
  const VerifyMacCmd: bv8 := 0x32
  const LoadKeyCmd: bv8 := 0x33
  const CipherCmd: bv8 := 0x34

  /** Fixed byte sizes of each command message (the `sizeof` the engine
      passes as the header length and as the send length). */
  const InitMsgLen: nat := 4
  const GenerateMacMsgLen: nat := 12
  const VerifyMacMsgLen: nat := 16
  const CipherMsgLen: nat := 36
  const LoadKeyMsgLen: nat := 4

  /** Fixed byte sizes of each response message. */
  const InitRspLen: nat := 12
  const GenerateMacRspLen: nat := 8
  const VerifyMacRspLen: nat := 12
  const CipherRspLen: nat := 8
  const LoadKeyRspLen: nat := 8

  /** Message header: the command and the total message length in bytes. */
  datatype Header = Header(command: bv8, length: nat)

  datatype Message =
    | InitReq(hdr: Header)
    | GenerateMacReq(hdr: Header, keyId: bv16, messageLength: bv16, dataOffset: bv16, macOffset: bv16)
    | VerifyMacReq(hdr: Header, keyId: bv16, messageLength: bv16, dataOffset: bv16, macOffset: bv16,
                   macLength: bv8)
    | CipherReq(hdr: Header, keyId: bv16, algo: bv8, flags: bv8,
                inputsAddressExt: bv32, outputsAddressExt: bv32,
                ivAddress: bv32, inputAddress: bv32, outputAddress: bv32,
                dataLength: bv32, crc: bv32)
    | LoadKeyReq(hdr: Header)

  /** The command each kind of message must carry in its header. */
  function CommandOf(m: Message): bv8
  {
    match m
    case InitReq(_) => InitCmd
    case GenerateMacReq(_, _, _, _, _) => GenerateMacCmd
    case VerifyMacReq(_, _, _, _, _, _) => VerifyMacCmd
    case CipherReq(_, _, _, _, _, _, _, _, _, _, _) => CipherCmd
    case LoadKeyReq(_) => LoadKeyCmd
  }

  /** The fixed byte size of each kind of message. */
  function SizeOf(m: Message): nat
  {
    match m
    case InitReq(_) => InitMsgLen
    case GenerateMacReq(_, _, _, _, _) => GenerateMacMsgLen
    case VerifyMacReq(_, _, _, _, _, _) => VerifyMacMsgLen
    case CipherReq(_, _, _, _, _, _, _, _, _, _, _) => CipherMsgLen
    case LoadKeyReq(_) => LoadKeyMsgLen
  }

  /** A message as the engine builds it: its header names its own command
      and its own fixed size. */
  predicate WellFormed(m: Message)
  {
    m.hdr == Header(CommandOf(m), SizeOf(m))
  }

  /** A word from its four bytes, least significant first. */
  function Bytes4(b0: bv8, b1: bv8, b2: bv8, b3: bv8): bv32
  {
    (b0 as bv32) | ((b1 as bv32) << 8) | ((b2 as bv32) << 16) | ((b3 as bv32) << 24)
  }

  /** Byte `k` of a word, least significant first. */
  function Byte(w: bv32, k: nat): bv8
    requires k < 4
  {
    if k == 0 then (w & 0xFF) as bv8
    else if k == 1 then ((w >> 8) & 0xFF) as bv8
    else if k == 2 then ((w >> 16) & 0xFF) as bv8
    else (w >> 24) as bv8
  }

  lemma BytesOfBytes4(b0: bv8, b1: bv8, b2: bv8, b3: bv8)
    ensures Byte(Bytes4(b0, b1, b2, b3), 0) == b0
    ensures Byte(Bytes4(b0, b1, b2, b3), 1) == b1
    ensures Byte(Bytes4(b0, b1, b2, b3), 2) == b2
    ensures Byte(Bytes4(b0, b1, b2, b3), 3) == b3
  {
  }

  /** The header's length field: the message size in words, one byte. */
  function SizeByte(length: nat): bv8
  {
    ((length / 4) % 256) as bv8
  }

  lemma SizeByteRoundTrip(length: nat)
    requires length % 4 == 0 && length < 1024
    ensures 4 * (SizeByte(length) as nat) == length
  {
    var n := length / 4;
    assert length == 4 * n;
    assert n % 256 == n;
    assert (n as bv8) as nat == n;
  }

  function HeaderWord(h: Header): bv32
  {
    Bytes4(0, SizeByte(h.length), h.command, 0)
  }

  function DecodeHeader(w: bv32): Header
  {
    Header(Byte(w, 2), 4 * (Byte(w, 1) as nat))
  }

  function Pack16(lo: bv16, hi: bv16): bv32
  {
    (lo as bv32) | ((hi as bv32) << 16)
  }

  function Low8(x: bv16): bv8
  {
    (x & 0xFF) as bv8
  }

  function High8(x: bv16): bv8
  {
    (x >> 8) as bv8
  }

  function Low16(w: bv32): bv16
  {
    (w & 0xFFFF) as bv16
  }

  function High16(w: bv32): bv16
  {
    (w >> 16) as bv16
  }

  /** The word view of a message (the C `words` member of each message). */
  function Words(m: Message): (ws: seq<bv32>)
    ensures |ws| > 0 && ws[0] == HeaderWord(m.hdr)
    ensures 4 * |ws| == SizeOf(m)
  {
    match m
    case InitReq(h) => [HeaderWord(h)]
    case GenerateMacReq(h, keyId, len, dataOff, macOff) =>
      [HeaderWord(h), Pack16(keyId, len), Pack16(dataOff, macOff)]
    case VerifyMacReq(h, keyId, len, dataOff, macOff, macLen) =>
      [HeaderWord(h), Pack16(keyId, len), Pack16(dataOff, macOff), Bytes4(macLen, 0, 0, 0)]
    case CipherReq(h, keyId, algo, flags, inExt, outExt, iv, input, output, len, crc) =>
      [HeaderWord(h), Bytes4(Low8(keyId), High8(keyId), algo, flags),
       inExt, outExt, iv, input, output, len, crc]
    case LoadKeyReq(h) => [HeaderWord(h)]
  }

  /** Reads a message back from its word view; `None` when the header does
      not name a known command of the right size. */
  function Decode(ws: seq<bv32>): (r: Option<Message>)
    ensures r.Some? ==> WellFormed(r.value)
  {
    if |ws| == 0 then None
    else
      var h := DecodeHeader(ws[0]);
      if h.length != 4 * |ws| then None
      else if h.command == InitCmd && |ws| == 1 then
        Some(InitReq(h))
      else if h.command == GenerateMacCmd && |ws| == 3 then
        Some(GenerateMacReq(h, Low16(ws[1]), High16(ws[1]), Low16(ws[2]), High16(ws[2])))
      else if h.command == VerifyMacCmd && |ws| == 4 then
        Some(VerifyMacReq(h, Low16(ws[1]), High16(ws[1]), Low16(ws[2]), High16(ws[2]), Byte(ws[3], 0)))
      else if h.command == CipherCmd && |ws| == 9 then
        Some(CipherReq(h, Low16(ws[1]), Byte(ws[1], 2), Byte(ws[1], 3),
                       ws[2], ws[3], ws[4], ws[5], ws[6], ws[7], ws[8]))
      else if h.command == LoadKeyCmd && |ws| == 1 then
        Some(LoadKeyReq(h))
      else None
  }

  lemma HeaderRoundTrip(h: Header)
    requires h.length % 4 == 0 && h.length < 1024
    ensures DecodeHeader(HeaderWord(h)) == h
  {
    BytesOfBytes4(0, SizeByte(h.length), h.command, 0);
    SizeByteRoundTrip(h.length);
  }

  lemma Pack16RoundTrip(lo: bv16, hi: bv16)
    ensures Low16(Pack16(lo, hi)) == lo
    ensures High16(Pack16(lo, hi)) == hi
  {
  }

  lemma KeyWordRoundTrip(keyId: bv16, algo: bv8, flags: bv8)
    ensures Low16(Bytes4(Low8(keyId), High8(keyId), algo, flags)) == keyId
  {
  }

  /** Every message the engine builds is read back unchanged from its word
      view, so the header length is the exact serialized size. */
  lemma RoundTrip(m: Message)
    requires WellFormed(m)
    ensures Decode(Words(m)) == Some(m)
  {
    HeaderRoundTrip(m.hdr);
    var ws := Words(m);
    assert DecodeHeader(ws[0]) == m.hdr;
    assert m.hdr.length == 4 * |ws|;
    match m
    case InitReq(_) =>
    case GenerateMacReq(h, keyId, len, dataOff, macOff) =>
      Pack16RoundTrip(keyId, len);
      Pack16RoundTrip(dataOff, macOff);
    case VerifyMacReq(h, keyId, len, dataOff, macOff, macLen) =>
      Pack16RoundTrip(keyId, len);
      Pack16RoundTrip(dataOff, macOff);
      BytesOfBytes4(macLen, 0, 0, 0);
    case CipherReq(h, keyId, algo, flags, _, _, _, _, _, _, _) =>
      BytesOfBytes4(Low8(keyId), High8(keyId), algo, flags);
      KeyWordRoundTrip(keyId, algo, flags);
    case LoadKeyReq(_) =>
  }
}
