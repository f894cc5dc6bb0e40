/** The SHE commands: MAC generation and verification, the generic cipher
    command with its ECB and CBC wrappers, key loading, and the commands
    that exist only as stubs. Each command is a pure function of its
    arguments and the transport's script, returning the error kind and the
    calls it made. */
module Commands {
  import opened Base
  import opened Crc
  import opened Messages
  import opened Status
  import opened Transport
  import opened Exchange

  /** SHE_MAC_SIZE: a 128-bit MAC. */
  const MacSize: nat := 16
  /** SHE_AES_BLOCK_SIZE_128: one AES block. */
  const AesBlockSize128: nat := 16

  // Cipher algorithm selectors and direction flags (SHE_CIPHER_ALGO_*,
  // SHE_CIPHER_FLAG_*). Placeholder values: only distinctness is relied upon.
  const AlgoEcb: bv8 := 0x00
  const AlgoCbc: bv8 := 0x01
  const FlagEncrypt: bv8 := 0x01
  const FlagDecrypt: bv8 := 0x00

  /** SEC_MEM_SHORT_ADDR_MASK. Placeholder value; no property depends on it. */
  const SecMemShortAddrMask: bv64 := 0xFFFF

  // The DATA_BUF_* flag combinations the commands request.
  const InputSecureShort := BufFlags(true, true, true)
  const OutputSecureShort := BufFlags(false, true, true)
  const InputSecure := BufFlags(true, true, false)
  const OutputSecure := BufFlags(false, true, false)

  /** The MAC verification flag written to `*verification_status`. */
  datatype MacVerification = MacVerificationSuccess | MacVerificationFailed

  datatype CommandOutcome = CommandOutcome(err: SheErr, calls: seq<Call>)

  datatype VerifyOutcome = VerifyOutcome(err: SheErr, verification: MacVerification, calls: seq<Call>)

  /** The key field `(uint16_t)key_ext | (uint16_t)key_id`: both operands
      are bytes, so the field never uses its high byte. */
  function KeyField(keyExt: bv8, keyId: bv8): (k: bv16)
    ensures High8(k) == 0
    ensures Low8(k) == keyExt | keyId
  {
    (keyExt as bv16) | (keyId as bv16)
  }

  /** `(uint16_t)(addr & SEC_MEM_SHORT_ADDR_MASK)`: a short offset into
      secure memory. */
  function ShortOffset(a: bv64): bv16
  {
    ((a & SecMemShortAddrMask) & 0xFFFF) as bv16
  }

  /** MAC generation (`she_cmd_generate_mac`). */
  function GenerateMac(keyExt: bv8, keyId: bv8, messageLength: bv16, message: Ptr, mac: Ptr, p: Port)
    : (r: CommandOutcome)
    ensures r.err == NoError <==>
              p.sent == GenerateMacMsgLen && p.read == GenerateMacRspLen && p.reply.rspCode == SuccessInd
    ensures p.sent != GenerateMacMsgLen || p.read != GenerateMacRspLen ==> r.err == GeneralError
    ensures p.sent == GenerateMacMsgLen && p.read == GenerateMacRspLen && p.reply.rspCode != SuccessInd ==>
              r.err == MapStatus(p.reply.rspCode)
    ensures |r.calls| == (if p.sent == GenerateMacMsgLen then 4 else 3)
    ensures p.sent == GenerateMacMsgLen ==> r.calls[3] == Read(GenerateMacRspLen)
    ensures r.calls[..2] == [MapBuffer(message, messageLength as nat, InputSecureShort),
                             MapBuffer(mac, MacSize, OutputSecureShort)]
    ensures r.calls[2].Send? && r.calls[2].len == GenerateMacMsgLen
    ensures var m := r.calls[2].msg;
            m.GenerateMacReq? && WellFormed(m) && m.keyId == KeyField(keyExt, keyId)
            && m.messageLength == messageLength
            && m.dataOffset == ShortOffset(MapReply(p, 0)) && m.macOffset == ShortOffset(MapReply(p, 1))
  {
    var maps := [MapBuffer(message, messageLength as nat, InputSecureShort),
                 MapBuffer(mac, MacSize, OutputSecureShort)];
    var cmd := GenerateMacReq(Header(GenerateMacCmd, GenerateMacMsgLen), KeyField(keyExt, keyId), messageLength,
                              ShortOffset(MapReply(p, 0)), ShortOffset(MapReply(p, 1)));
    var x := SendMsgAndGetResp(cmd, GenerateMacMsgLen, GenerateMacRspLen, p);
    CommandOutcome(Classify(x), maps + x.calls)
  }

  /** MAC verification (`she_cmd_verify_mac`). The flag reports success
      only when the whole exchange succeeded and the secure element
      reported a match; a reported mismatch is still no error. */
  function VerifyMac(keyExt: bv8, keyId: bv8, messageLength: bv16, message: Ptr, mac: Ptr, macLength: bv8,
                     p: Port): (r: VerifyOutcome)
    ensures r.err == NoError <==>
              p.sent == VerifyMacMsgLen && p.read == VerifyMacRspLen && p.reply.rspCode == SuccessInd
    ensures p.sent != VerifyMacMsgLen || p.read != VerifyMacRspLen ==> r.err == GeneralError
    ensures p.sent == VerifyMacMsgLen && p.read == VerifyMacRspLen && p.reply.rspCode != SuccessInd ==>
              r.err == MapStatus(p.reply.rspCode)
    ensures r.verification == MacVerificationSuccess <==>
              r.err == NoError && p.reply.verificationStatus == 0
    ensures |r.calls| == (if p.sent == VerifyMacMsgLen then 4 else 3)
    ensures p.sent == VerifyMacMsgLen ==> r.calls[3] == Read(VerifyMacRspLen)
    ensures r.calls[..2] == [MapBuffer(message, messageLength as nat, InputSecureShort),
                             MapBuffer(mac, MacSize, InputSecureShort)]
    ensures r.calls[2].Send? && r.calls[2].len == VerifyMacMsgLen
    ensures var m := r.calls[2].msg;
            m.VerifyMacReq? && WellFormed(m) && m.keyId == KeyField(keyExt, keyId)
            && m.messageLength == messageLength && m.macLength == macLength
            && m.dataOffset == ShortOffset(MapReply(p, 0)) && m.macOffset == ShortOffset(MapReply(p, 1))
  {
    var maps := [MapBuffer(message, messageLength as nat, InputSecureShort),
                 MapBuffer(mac, MacSize, InputSecureShort)];
    var cmd := VerifyMacReq(Header(VerifyMacCmd, VerifyMacMsgLen), KeyField(keyExt, keyId), messageLength,
                            ShortOffset(MapReply(p, 0)), ShortOffset(MapReply(p, 1)), macLength);
    var x := SendMsgAndGetResp(cmd, VerifyMacMsgLen, VerifyMacRspLen, p);
    var err := Classify(x);
    var verification :=
      if err != NoError then MacVerificationFailed
      else if x.reply.value.verificationStatus == 0 then MacVerificationSuccess
      else MacVerificationFailed;
    VerifyOutcome(err, verification, maps + x.calls)
  }

  /** The fields of a cipher request for the given arguments and mapped
      addresses: addresses carry their low words, the input and output
      extensions their high words, and the message XORs to zero, check
      word included. */
  predicate CipherFields(m: Message, keyExt: bv8, keyId: bv8, dataLength: bv32, flags: bv8, algo: bv8,
                         ivAddr: bv64, inAddr: bv64, outAddr: bv64)
  {
    && m.CipherReq?
    && WellFormed(m)
    && m.keyId == KeyField(keyExt, keyId)
    && m.algo == algo
    && m.flags == flags
    && m.inputsAddressExt == Hi32(inAddr)
    && m.outputsAddressExt == Hi32(outAddr)
    && m.ivAddress == Lo32(ivAddr)
    && m.inputAddress == Lo32(inAddr)
    && m.outputAddress == Lo32(outAddr)
    && m.dataLength == dataLength
    && XorAll(Words(m)) == 0
  }

  /** The cipher request with its check word computed over every word but
      the last. */
  function BuildCipherReq(keyExt: bv8, keyId: bv8, dataLength: bv32, flags: bv8, algo: bv8,
                          ivAddr: bv64, inAddr: bv64, outAddr: bv64): (m: Message)
    ensures CipherFields(m, keyExt, keyId, dataLength, flags, algo, ivAddr, inAddr, outAddr)
  {
    var m0 := CipherReq(Header(CipherCmd, CipherMsgLen), KeyField(keyExt, keyId), algo, flags,
                        Hi32(inAddr), Hi32(outAddr), Lo32(ivAddr), Lo32(inAddr), Lo32(outAddr), dataLength, 0);
    var crc := MsgCrc(Words(m0), CipherMsgLen - 4);
    var m := m0.(crc := crc);
    assert Words(m) == Words(m0)[..(CipherMsgLen - 4) / 4] + [crc];
    m
  }

  /** Recomputing the check word from a captured cipher request gives the
      stored one: it is the XOR of every other word of the message. */
  lemma CheckWordIsXorOfOthers(m: Message, keyExt: bv8, keyId: bv8, dataLength: bv32, flags: bv8, algo: bv8,
                               ivAddr: bv64, inAddr: bv64, outAddr: bv64)
    requires CipherFields(m, keyExt, keyId, dataLength, flags, algo, ivAddr, inAddr, outAddr)
    ensures m.crc == XorAll(Words(m)[..8])
    ensures m.crc == MsgCrc(Words(m), CipherMsgLen - 4)
  {
    var ws := Words(m);
    assert ws == ws[..8] + [m.crc];
    XorAllSnoc(ws[..8], m.crc);
  }

  /** Builds the cipher request for the mapped addresses and exchanges it,
      after the buffer mappings `maps`. */
  function SendCipherReq(maps: seq<Call>, keyExt: bv8, keyId: bv8, dataLength: bv32, flags: bv8, algo: bv8,
                         ivAddr: bv64, inAddr: bv64, outAddr: bv64, p: Port): (r: CommandOutcome)
    ensures |r.calls| == |maps| + (if p.sent == CipherMsgLen then 2 else 1)
    ensures r.calls[..|maps|] == maps
    ensures forall i :: |maps| <= i < |r.calls| ==> !r.calls[i].MapBuffer?
    ensures r.calls[|maps|].Send? && r.calls[|maps|].len == CipherMsgLen
    ensures p.sent == CipherMsgLen ==> r.calls[|maps| + 1] == Read(CipherRspLen)
    ensures CipherFields(r.calls[|maps|].msg, keyExt, keyId, dataLength, flags, algo, ivAddr, inAddr, outAddr)
    ensures r.err == NoError <==>
              p.sent == CipherMsgLen && p.read == CipherRspLen && p.reply.rspCode == SuccessInd
    ensures p.sent != CipherMsgLen || p.read != CipherRspLen ==> r.err == GeneralError
    ensures p.sent == CipherMsgLen && p.read == CipherRspLen && p.reply.rspCode != SuccessInd ==>
              r.err == MapStatus(p.reply.rspCode)
  {
    var cmd := BuildCipherReq(keyExt, keyId, dataLength, flags, algo, ivAddr, inAddr, outAddr);
    var x := SendMsgAndGetResp(cmd, CipherMsgLen, CipherRspLen, p);
    CommandOutcome(Classify(x), maps + x.calls)
  }

  /** The IV and input buffers of a non-ECB request lie under different
      address extensions. Only these two are compared: the output
      extension travels in its own field. */
  predicate ExtensionMismatch(algo: bv8, p: Port)
  {
    algo != AlgoEcb && Hi32(MapReply(p, 1)) != Hi32(MapReply(p, 0))
  }

  /** The generic cipher command (`she_cmd_cipher`). In ECB mode the IV is
      not mapped and its address is 0; otherwise the IV is mapped first and
      its extension must equal the input's. */
  function Cipher(keyExt: bv8, keyId: bv8, dataLength: bv32, iv: Ptr, input: Ptr, output: Ptr,
                  flags: bv8, algo: bv8, p: Port): (r: CommandOutcome)
    ensures ExtensionMismatch(algo, p) ==> r.err == GeneralError && |r.calls| == 3 && NoExchange(r.calls)
    ensures r.err == NoError <==>
              !ExtensionMismatch(algo, p)
              && p.sent == CipherMsgLen && p.read == CipherRspLen && p.reply.rspCode == SuccessInd
    ensures p.sent != CipherMsgLen || p.read != CipherRspLen ==> r.err == GeneralError
    ensures !ExtensionMismatch(algo, p)
            && p.sent == CipherMsgLen && p.read == CipherRspLen && p.reply.rspCode != SuccessInd ==>
              r.err == MapStatus(p.reply.rspCode)
  {
    var ecb := algo == AlgoEcb;
    var dataMaps := [MapBuffer(input, dataLength as nat, InputSecure),
                     MapBuffer(output, dataLength as nat, OutputSecure)];
    var maps := if ecb then dataMaps else [MapBuffer(iv, AesBlockSize128, InputSecure)] + dataMaps;
    var ivAddr := if ecb then 0 else MapReply(p, 0);
    var inAddr := if ecb then MapReply(p, 0) else MapReply(p, 1);
    var outAddr := if ecb then MapReply(p, 1) else MapReply(p, 2);
    if ExtensionMismatch(algo, p) then CommandOutcome(GeneralError, maps)
    else SendCipherReq(maps, keyExt, keyId, dataLength, flags, algo, ivAddr, inAddr, outAddr, p)
  }

  /** ECB: the IV is never mapped, only the input and then the output,
      and the request carries IV address 0. */
  lemma CipherEcbMapsNoIv(keyExt: bv8, keyId: bv8, dataLength: bv32, iv: Ptr, input: Ptr, output: Ptr,
                          flags: bv8, p: Port)
    ensures var r := Cipher(keyExt, keyId, dataLength, iv, input, output, flags, AlgoEcb, p);
            && |r.calls| >= 3
            && r.calls[..2] == [MapBuffer(input, dataLength as nat, InputSecure),
                                MapBuffer(output, dataLength as nat, OutputSecure)]
            && (forall i :: 2 <= i < |r.calls| ==> !r.calls[i].MapBuffer?)
            && r.calls[2].Send? && r.calls[2].len == CipherMsgLen
            && CipherFields(r.calls[2].msg, keyExt, keyId, dataLength, flags, AlgoEcb,
                            0, MapReply(p, 0), MapReply(p, 1))
  {
  }

  /** Other modes: the IV is mapped first, then the input, then the
      output, and nothing else is mapped. */
  lemma CipherMapsIvFirst(keyExt: bv8, keyId: bv8, dataLength: bv32, iv: Ptr, input: Ptr, output: Ptr,
                          flags: bv8, algo: bv8, p: Port)
    requires algo != AlgoEcb
    ensures var r := Cipher(keyExt, keyId, dataLength, iv, input, output, flags, algo, p);
            && |r.calls| >= 3
            && r.calls[..3] == [MapBuffer(iv, AesBlockSize128, InputSecure),
                                MapBuffer(input, dataLength as nat, InputSecure),
                                MapBuffer(output, dataLength as nat, OutputSecure)]
            && (forall i :: 3 <= i < |r.calls| ==> !r.calls[i].MapBuffer?)
  {
    var r := Cipher(keyExt, keyId, dataLength, iv, input, output, flags, algo, p);
    var maps := [MapBuffer(iv, AesBlockSize128, InputSecure)]
                + [MapBuffer(input, dataLength as nat, InputSecure), MapBuffer(output, dataLength as nat, OutputSecure)];
    assert maps == [MapBuffer(iv, AesBlockSize128, InputSecure),
                    MapBuffer(input, dataLength as nat, InputSecure),
                    MapBuffer(output, dataLength as nat, OutputSecure)];
    if ExtensionMismatch(algo, p) {
      assert r.calls == maps;
    } else {
      assert r == SendCipherReq(maps, keyExt, keyId, dataLength, flags, algo,
                                MapReply(p, 0), MapReply(p, 1), MapReply(p, 2), p);
    }
  }

  /** Other modes with matching extensions: the request is sent right
      after the three mappings, with the fields of the mapped addresses. */
  lemma CipherSendsSplitAddresses(keyExt: bv8, keyId: bv8, dataLength: bv32, iv: Ptr, input: Ptr, output: Ptr,
                                  flags: bv8, algo: bv8, p: Port)
    requires algo != AlgoEcb
    ensures var r := Cipher(keyExt, keyId, dataLength, iv, input, output, flags, algo, p);
            !ExtensionMismatch(algo, p) ==>
            && |r.calls| >= 4
            && r.calls[3].Send? && r.calls[3].len == CipherMsgLen
            && CipherFields(r.calls[3].msg, keyExt, keyId, dataLength, flags, algo,
                            MapReply(p, 0), MapReply(p, 1), MapReply(p, 2))
  {
  }

  /** As written, only the IV's extension is compared with the input's:
      an output under a different extension is still sent. */
  lemma OutputExtensionNotChecked(keyExt: bv8, keyId: bv8, dataLength: bv32, iv: Ptr, input: Ptr, output: Ptr,
                                  flags: bv8, algo: bv8, p: Port)
    requires algo != AlgoEcb && !ExtensionMismatch(algo, p)
    requires Hi32(MapReply(p, 2)) != Hi32(MapReply(p, 1))
    ensures var r := Cipher(keyExt, keyId, dataLength, iv, input, output, flags, algo, p);
            r.calls[3].Send? && r.calls[3].msg.outputsAddressExt != r.calls[3].msg.inputsAddressExt
  {
    CipherSendsSplitAddresses(keyExt, keyId, dataLength, iv, input, output, flags, algo, p);
  }

  /** As written, a failed mapping (address 0) is not checked for: when
      every mapping fails, the request is still sent, pointing at address 0. */
  lemma MappingFailureNotDetected(keyExt: bv8, keyId: bv8, dataLength: bv32, iv: Ptr, input: Ptr, output: Ptr,
                                  flags: bv8, algo: bv8, p: Port)
    requires p.mapAddrs == []
    ensures var r := Cipher(keyExt, keyId, dataLength, iv, input, output, flags, algo, p);
            var n := if algo == AlgoEcb then 2 else 3;
            |r.calls| > n && r.calls[n].Send?
            && r.calls[n].msg.inputAddress == 0 && r.calls[n].msg.outputAddress == 0
  {
    if algo == AlgoEcb {
      CipherEcbMapsNoIv(keyExt, keyId, dataLength, iv, input, output, flags, p);
    } else {
      CipherSendsSplitAddresses(keyExt, keyId, dataLength, iv, input, output, flags, algo, p);
    }
  }

  /** As written, in ECB mode a failed mapping of either buffer is not
      detected: the request is still sent, and the failed buffer's address
      and extension are both 0. */
  lemma EcbMappingFailureNotDetected(keyExt: bv8, keyId: bv8, dataLength: bv32, iv: Ptr, input: Ptr, output: Ptr,
                                     flags: bv8, p: Port)
    requires MapReply(p, 0) == 0 || MapReply(p, 1) == 0
    ensures var r := Cipher(keyExt, keyId, dataLength, iv, input, output, flags, AlgoEcb, p);
            && |r.calls| >= 3 && r.calls[2].Send?
            && (MapReply(p, 0) == 0 ==> r.calls[2].msg.inputAddress == 0 && r.calls[2].msg.inputsAddressExt == 0)
            && (MapReply(p, 1) == 0 ==> r.calls[2].msg.outputAddress == 0 && r.calls[2].msg.outputsAddressExt == 0)
  {
    CipherEcbMapsNoIv(keyExt, keyId, dataLength, iv, input, output, flags, p);
  }

  /** As written, a failed output mapping is never detected, in any mode:
      whenever the extension comparison passes, the request is sent with
      output address and output extension 0. */
  lemma OutputMappingFailureNotDetected(keyExt: bv8, keyId: bv8, dataLength: bv32, iv: Ptr, input: Ptr,
                                        output: Ptr, flags: bv8, algo: bv8, p: Port)
    requires !ExtensionMismatch(algo, p)
    requires MapReply(p, if algo == AlgoEcb then 1 else 2) == 0
    ensures var r := Cipher(keyExt, keyId, dataLength, iv, input, output, flags, algo, p);
            var n := if algo == AlgoEcb then 2 else 3;
            && |r.calls| > n && r.calls[n].Send?
            && r.calls[n].msg.outputAddress == 0 && r.calls[n].msg.outputsAddressExt == 0
  {
    if algo == AlgoEcb {
      CipherEcbMapsNoIv(keyExt, keyId, dataLength, iv, input, output, flags, p);
    } else {
      CipherSendsSplitAddresses(keyExt, keyId, dataLength, iv, input, output, flags, algo, p);
    }
  }

  /** A failed input mapping is caught only indirectly: outside ECB, when
      the IV lies under a nonzero extension, the input's extension 0 differs
      from it and the command aborts before anything is sent. */
  lemma InputMappingFailureCaughtByExtension(keyExt: bv8, keyId: bv8, dataLength: bv32, iv: Ptr, input: Ptr,
                                             output: Ptr, flags: bv8, algo: bv8, p: Port)
    requires algo != AlgoEcb && MapReply(p, 1) == 0 && Hi32(MapReply(p, 0)) != 0
    ensures var r := Cipher(keyExt, keyId, dataLength, iv, input, output, flags, algo, p);
            r.err == GeneralError && NoExchange(r.calls)
  {
  }

  /** The secure element rebuilds each 64-bit address from the request:
      input and output from their own extension and low word, and the IV
      from the input's extension, which gives back the IV's address exactly
      when the two extensions agree. This is what the IV/input comparison
      guards. */
  lemma CipherFieldsRecoverAddresses(m: Message, keyExt: bv8, keyId: bv8, dataLength: bv32, flags: bv8,
                                     algo: bv8, ivAddr: bv64, inAddr: bv64, outAddr: bv64)
    requires CipherFields(m, keyExt, keyId, dataLength, flags, algo, ivAddr, inAddr, outAddr)
    ensures Join64(m.inputsAddressExt, m.inputAddress) == inAddr
    ensures Join64(m.outputsAddressExt, m.outputAddress) == outAddr
    ensures Join64(m.inputsAddressExt, m.ivAddress) == ivAddr <==> Hi32(ivAddr) == Hi32(inAddr)
  {
    SplitJoin(inAddr);
    SplitJoin(outAddr);
    SplitJoin(ivAddr);
    JoinSplit(m.inputsAddressExt, m.ivAddress);
  }

  /** Outside ECB, a request that passes the comparison lets the secure
      element reach all three mapped buffers. */
  lemma CipherAddressesReachable(keyExt: bv8, keyId: bv8, dataLength: bv32, iv: Ptr, input: Ptr, output: Ptr,
                                 flags: bv8, algo: bv8, p: Port)
    requires algo != AlgoEcb && !ExtensionMismatch(algo, p)
    ensures var r := Cipher(keyExt, keyId, dataLength, iv, input, output, flags, algo, p);
            && |r.calls| >= 4 && r.calls[3].Send?
            && var m := r.calls[3].msg;
            && Join64(m.inputsAddressExt, m.ivAddress) == MapReply(p, 0)
            && Join64(m.inputsAddressExt, m.inputAddress) == MapReply(p, 1)
            && Join64(m.outputsAddressExt, m.outputAddress) == MapReply(p, 2)
  {
    CipherSendsSplitAddresses(keyExt, keyId, dataLength, iv, input, output, flags, algo, p);
    var r := Cipher(keyExt, keyId, dataLength, iv, input, output, flags, algo, p);
    CipherFieldsRecoverAddresses(r.calls[3].msg, keyExt, keyId, dataLength, flags, algo,
                                 MapReply(p, 0), MapReply(p, 1), MapReply(p, 2));
  }

  /** CBC encryption (`she_cmd_enc_cbc`). */
  function EncCbc(keyExt: bv8, keyId: bv8, dataLength: bv32, iv: Ptr, plaintext: Ptr, ciphertext: Ptr,
                  p: Port): (r: CommandOutcome)
    ensures |r.calls| >= 3 && r.calls[..3] == [MapBuffer(iv, AesBlockSize128, InputSecure),
                             MapBuffer(plaintext, dataLength as nat, InputSecure),
                             MapBuffer(ciphertext, dataLength as nat, OutputSecure)]
    ensures Hi32(MapReply(p, 1)) == Hi32(MapReply(p, 0)) ==>
              |r.calls| >= 4 && r.calls[3].Send? && r.calls[3].msg.CipherReq?
              && r.calls[3].msg.algo == AlgoCbc && r.calls[3].msg.flags == FlagEncrypt
              && r.calls[3].msg.dataLength == dataLength
  {
    CipherMapsIvFirst(keyExt, keyId, dataLength, iv, plaintext, ciphertext, FlagEncrypt, AlgoCbc, p);
    CipherSendsSplitAddresses(keyExt, keyId, dataLength, iv, plaintext, ciphertext, FlagEncrypt, AlgoCbc, p);
    Cipher(keyExt, keyId, dataLength, iv, plaintext, ciphertext, FlagEncrypt, AlgoCbc, p)
  }

  /** CBC decryption (`she_cmd_dec_cbc`). */
  function DecCbc(keyExt: bv8, keyId: bv8, dataLength: bv32, iv: Ptr, ciphertext: Ptr, plaintext: Ptr,
                  p: Port): (r: CommandOutcome)
    ensures |r.calls| >= 3 && r.calls[..3] == [MapBuffer(iv, AesBlockSize128, InputSecure),
                             MapBuffer(ciphertext, dataLength as nat, InputSecure),
                             MapBuffer(plaintext, dataLength as nat, OutputSecure)]
    ensures Hi32(MapReply(p, 1)) == Hi32(MapReply(p, 0)) ==>
              |r.calls| >= 4 && r.calls[3].Send? && r.calls[3].msg.CipherReq?
              && r.calls[3].msg.algo == AlgoCbc && r.calls[3].msg.flags == FlagDecrypt
              && r.calls[3].msg.dataLength == dataLength
  {
    CipherMapsIvFirst(keyExt, keyId, dataLength, iv, ciphertext, plaintext, FlagDecrypt, AlgoCbc, p);
    CipherSendsSplitAddresses(keyExt, keyId, dataLength, iv, ciphertext, plaintext, FlagDecrypt, AlgoCbc, p);
    Cipher(keyExt, keyId, dataLength, iv, ciphertext, plaintext, FlagDecrypt, AlgoCbc, p)
  }

  /** ECB encryption of one block (`she_cmd_enc_ecb`): no IV, and the
      data length is fixed to one AES block. */
  function EncEcb(keyExt: bv8, keyId: bv8, plaintext: Ptr, ciphertext: Ptr, p: Port): (r: CommandOutcome)
    ensures |r.calls| >= 3 && r.calls[..2] == [MapBuffer(plaintext, AesBlockSize128, InputSecure),
                             MapBuffer(ciphertext, AesBlockSize128, OutputSecure)]
    ensures forall i :: 2 <= i < |r.calls| ==> !r.calls[i].MapBuffer?
    ensures r.calls[2].Send? && r.calls[2].msg.CipherReq?
            && r.calls[2].msg.algo == AlgoEcb && r.calls[2].msg.flags == FlagEncrypt
            && r.calls[2].msg.dataLength as nat == AesBlockSize128 && r.calls[2].msg.ivAddress == 0
  {
    assert (AesBlockSize128 as bv32) as nat == AesBlockSize128;
    CipherEcbMapsNoIv(keyExt, keyId, AesBlockSize128 as bv32, Null, plaintext, ciphertext, FlagEncrypt, p);
    Cipher(keyExt, keyId, AesBlockSize128 as bv32, Null, plaintext, ciphertext, FlagEncrypt, AlgoEcb, p)
  }

  /** ECB decryption of one block (`she_cmd_dec_ecb`). */
  function DecEcb(keyExt: bv8, keyId: bv8, ciphertext: Ptr, plaintext: Ptr, p: Port): (r: CommandOutcome)
    ensures |r.calls| >= 3 && r.calls[..2] == [MapBuffer(ciphertext, AesBlockSize128, InputSecure),
                             MapBuffer(plaintext, AesBlockSize128, OutputSecure)]
    ensures forall i :: 2 <= i < |r.calls| ==> !r.calls[i].MapBuffer?
    ensures r.calls[2].Send? && r.calls[2].msg.CipherReq?
            && r.calls[2].msg.algo == AlgoEcb && r.calls[2].msg.flags == FlagDecrypt
            && r.calls[2].msg.dataLength as nat == AesBlockSize128 && r.calls[2].msg.ivAddress == 0
  {
    assert (AesBlockSize128 as bv32) as nat == AesBlockSize128;
    CipherEcbMapsNoIv(keyExt, keyId, AesBlockSize128 as bv32, Null, ciphertext, plaintext, FlagDecrypt, p);
    Cipher(keyExt, keyId, AesBlockSize128 as bv32, Null, ciphertext, plaintext, FlagDecrypt, AlgoEcb, p)
  }

  /** Key loading (`she_cmd_load_key`): only the header is filled in; the
      M1..M5 buffers are neither mapped nor sent. */
  function LoadKey(m1: Ptr, m2: Ptr, m3: Ptr, m4: Ptr, m5: Ptr, p: Port): (r: CommandOutcome)
    ensures r.err == NoError <==>
              p.sent == LoadKeyMsgLen && p.read == LoadKeyRspLen && p.reply.rspCode == SuccessInd
    ensures p.sent != LoadKeyMsgLen || p.read != LoadKeyRspLen ==> r.err == GeneralError
    ensures p.sent == LoadKeyMsgLen && p.read == LoadKeyRspLen && p.reply.rspCode != SuccessInd ==>
              r.err == MapStatus(p.reply.rspCode)
    ensures r.calls == [Send(LoadKeyReq(Header(LoadKeyCmd, LoadKeyMsgLen)), LoadKeyMsgLen)]
                       + (if p.sent == LoadKeyMsgLen then [Read(LoadKeyRspLen)] else [])
    ensures forall i :: 0 <= i < |r.calls| ==> !r.calls[i].MapBuffer?
  {
    var cmd := LoadKeyReq(Header(LoadKeyCmd, LoadKeyMsgLen));
    var x := SendMsgAndGetResp(cmd, LoadKeyMsgLen, LoadKeyRspLen, p);
    CommandOutcome(Classify(x), x.calls)
  }

  /** The outcome of key loading does not depend on the key material. */
  lemma LoadKeyIgnoresKeyMaterial(m1: Ptr, m2: Ptr, m3: Ptr, m4: Ptr, m5: Ptr,
                                  n1: Ptr, n2: Ptr, n3: Ptr, n4: Ptr, n5: Ptr, p: Port)
    ensures LoadKey(m1, m2, m3, m4, m5, p) == LoadKey(n1, n2, n3, n4, n5, p)
  {
  }

  /** The commands present only as stubs. */
  datatype StubCommand = LoadPlainKey | ExportRamKey | InitRng | ExtendSeed | Rnd | GetStatus | GetId | Cancel

  /** Every stub reports a general error without touching the transport. */
  function Unsupported(c: StubCommand): (r: CommandOutcome)
    ensures r.err == GeneralError
    ensures r.calls == []
  {
    CommandOutcome(GeneralError, [])
  }
}
