# SHE client protocol engine — a Dafny model

This project models the command/response engine of a userspace SHE client
library (`src/she_lib.c`). The library talks to a secure element over a
message-unit channel, one request at a time. The model covers these parts:

- the XOR check word over the words of a message;
- the send-then-read exchange helper, with exact-length checks and no retry;
- the total table that turns the secure element's response codes into the
  library's error kinds;
- opening a session (handle allocation, platform channel, INIT handshake,
  shared-buffer configuration) with cleanup on every failure path, and
  closing it;
- the four implemented commands (MAC generation, MAC verification, the
  generic cipher command with its ECB/CBC wrappers, key loading) and the
  stubs that always fail.

The platform layer is modelled as a scripted oracle (`Transport.Port`).
For each command it supplies the addresses that successive buffer-mapping
requests return, the byte counts that send and read return, and the
response fields. Each command is a pure function from its arguments and
the script to its error kind and the trace of platform calls it made
(`Transport.Call`). The trace is what lets the contracts state ordering and
absence: the IV is never mapped in ECB mode, and nothing is sent after an
address-extension mismatch. Messages are records of fields (`Messages.Message`).
Their word view (`Messages.Words`) is what the check word is computed over.

Modules: `Base` (C integer widths, address split), `Crc`, `Messages`, `Status`,
`Transport`, `Exchange`, `Sessions`, `Commands`.

## Model

| member | source | states |
|---|---|---|
| Crc.ComputeMsgCrc | src/she_lib.c:22-32 | The loop returns the XOR of the first `msg_len / 4` words (floor division), and 0 when `msg_len < 4`. |
| Crc.MsgCrc | src/she_lib.c:22-32 | The check word is 0 below one word. Appended to the words it covers, it makes them XOR to 0. |
| Crc.XorAllAppend | src/she_lib.c:28-30 | The running XOR distributes over concatenation of word sequences. |
| Crc.SingleWordCorruptionDetected | src/she_lib.c:22-32 | In a message whose words XOR to 0, changing any single word makes the XOR nonzero, so the check word catches every one-word corruption. |
| Commands.BuildCipherReq | src/she_lib.c:266-290 | The cipher request has these fields: key field `key_ext` OR `key_id`; algo and flags; low words of the IV/input/output addresses; input and output extensions (high words); data length. Its header names the cipher command and the message size. All its words, the check word included, XOR to 0. |
| Exchange.SendMsgAndGetResp | src/she_lib.c:36-61 | Returns 0 iff both lengths are at least one word, send returned `(int32_t)cmd_len`, and read returned `(int32_t)rsp_len`. Nothing is called if a length is under a word. Exactly one send is made; one read follows only after a full send. |
| Exchange.ExchangeSucceedsIff | src/she_lib.c:43-56 | For lengths below 2^31, success means send and read each returned exactly the requested byte count. |
| Exchange.ExchangeNeverRetries | src/she_lib.c:41-59 | An exchange makes at most one send and at most one read. After a short send it makes no read. |
| Exchange.Classify | src/she_lib.c:195-205 | A command reports no error iff the exchange succeeded and the response code is the success code. A failed exchange gives a general error. Any other response code gives its table kind. |
| Status.MapStatus | src/she_lib.c:65-112 | The classification is total and never returns the success kind. A code outside the twelve named ones gives a general error. A named code is recovered from its kind. |
| Status.CodeOf | src/she_lib.c:70-105 | Every kind except no-error has a named response code of its own. |
| Status.MapStatusOfCode | src/she_lib.c:70-105 | Each error kind maps back from its own code, so the table is one-to-one on the named codes. |
| Status.MapStatusInjective | src/she_lib.c:68-110 | Two named codes that map to the same kind are the same code. |
| Status.SuccessIsNotClassified | src/she_lib.c:106-109 | The success code is not a named code, so the table classifies it as a general error. |
| Sessions.CloseSession | src/she_lib.c:115-122 | A NULL handle is a no-op. Otherwise the handle is released exactly once. The channel is closed exactly once if the handle has one, and that close comes first. |
| Sessions.OpenSession | src/she_lib.c:126-171 | A handle is returned iff allocation, channel open, the INIT exchange (exact lengths) and shared-buffer configuration all succeed. INIT is sent right after the channel opens. On success the last call configures the shared buffer with the offset and size from the INIT response. |
| Sessions.InitResponseCodeIgnored | src/she_lib.c:146-158 | The INIT response code is never inspected. The outcome of an open, handle and trace alike, is the same whatever code the secure element answers. A rejected handshake with exact lengths and a successful configuration still yields a session. |
| Sessions.OpenSessionCleanup | src/she_lib.c:133-170 | On failure the handle is released iff it was allocated. The channel is closed exactly once if it was opened, never otherwise. On success nothing is released or closed. |
| Sessions.OpenCloseBalanced | src/she_lib.c:115-171 | Open followed by close never leaks: every allocation is released, and every opened channel is closed, whatever the platform answers. |
| Commands.GenerateMac | src/she_lib.c:176-209 | No error iff the exchange completes with the exact sizes and a success code. A short send or read gives a general error. A hardware code gives its table kind. The message is mapped before the MAC, with their flags. After a full send the fourth call reads the fixed-size response. The request that is sent holds the key field, the length and the short offsets. |
| Commands.VerifyMac | src/she_lib.c:212-253 | Errors are classified as for MAC generation. The flag reports success iff there is no error and the element reported status 0. A reported mismatch is still no error. Every other path forces the flag to failed. Both buffers are mapped as inputs. The MAC is mapped at the full MAC size. After a full send the fourth call reads the fixed-size response. |
| Commands.KeyField | src/she_lib.c:268 | The key field is the OR of two bytes, so its high byte is always zero. |
| Commands.CheckWordIsXorOfOthers | src/she_lib.c:290 | In a cipher request the check word equals the XOR of every other word, so recomputing it from a captured message matches. |
| Commands.SendCipherReq | src/she_lib.c:285-305 | After the mappings, exactly one request is sent, with the fields of the mapped addresses, and no further mapping is made. Errors are classified from the exchange. |
| Commands.Cipher | src/she_lib.c:256-309 | If the IV and input extensions differ (non-ECB only), the result is a general error after the three mappings, with no send and no read. Otherwise no error iff the exchange completes with a success code, and a hardware code gives its table kind. |
| Commands.CipherEcbMapsNoIv | src/she_lib.c:271-277 | In ECB mode the IV is never mapped: only the input, then the output. The request is sent next and carries IV address 0. |
| Commands.CipherMapsIvFirst | src/she_lib.c:271-277 | In other modes the IV is mapped first (one AES block), then the input, then the output. Nothing else is mapped. |
| Commands.CipherSendsSplitAddresses | src/she_lib.c:279-290 | With matching extensions, the request is sent right after the three mappings. Its address fields are the low words of the mapped addresses, and its extensions are their high words. |
| Commands.OutputExtensionNotChecked | src/she_lib.c:279-284 | Only the IV extension is compared with the input extension. An output under a different extension is still sent. |
| Commands.MappingFailureNotDetected | src/she_lib.c:271-289 | When every mapping fails (address 0), nothing notices: the request is still sent, with zero input and output addresses. |
| Commands.EcbMappingFailureNotDetected | src/she_lib.c:271-289 | In ECB mode a failed input or output mapping is not detected. The request is still sent, and the failed buffer's address and extension are 0. |
| Commands.OutputMappingFailureNotDetected | src/she_lib.c:276-289 | In any mode, a failed output mapping is not detected. Whenever the extension comparison passes, the request is sent with output address and extension 0. |
| Commands.InputMappingFailureCaughtByExtension | src/she_lib.c:275-282 | A failed input mapping is caught only indirectly: outside ECB, when the IV lies under a nonzero extension, the comparison fails and nothing is sent. |
| Commands.CipherFieldsRecoverAddresses | src/she_lib.c:278-288 | The input and output addresses are rebuilt exactly from their extension and low word. The IV address is rebuilt from the input's extension, and that gives the IV's address back iff the two extensions agree. |
| Commands.CipherAddressesReachable | src/she_lib.c:271-288 | Outside ECB, a request that passes the comparison lets the secure element rebuild all three mapped addresses, the IV's included. |
| Commands.EncCbc | src/she_lib.c:312-315 | IV, plaintext, then ciphertext are mapped. The request names CBC, encrypt and the caller's length. |
| Commands.DecCbc | src/she_lib.c:318-321 | IV, ciphertext, then plaintext are mapped. The request names CBC, decrypt and the caller's length. |
| Commands.EncEcb | src/she_lib.c:324-327 | No IV is mapped. Both buffers are one AES block. The request names ECB and encrypt, with length 16 and IV address 0. |
| Commands.DecEcb | src/she_lib.c:330-333 | No IV is mapped. Both buffers are one AES block. The request names ECB and decrypt, with length 16 and IV address 0. |
| Commands.LoadKey | src/she_lib.c:336-365 | Errors are classified as for the other commands. The whole trace is the send of a header-only request, followed by the response read only after a full send. No buffer is mapped. |
| Commands.LoadKeyIgnoresKeyMaterial | src/she_lib.c:336-350 | The outcome does not depend on the M1..M5 arguments. |
| Commands.Unsupported | src/she_lib.c:367-419 | Each of the eight stubs returns a general error and makes no platform call. |
| Messages.RoundTrip | src/she_lib.c:185-194 | A request built with its own command and fixed size decodes back to the same request from its word view. The header length is the exact serialized size. |
| Messages.Words | src/she_lib.c:290 | The word view starts with the header word and is exactly the message's fixed byte size. |
| Base.AsInt32 | src/she_lib.c:49-54 | The `(int32_t)` conversion of a byte count is congruent to it modulo 2^32. It is non-negative exactly below 2^31. |
| Base.SplitJoin | src/she_lib.c:279-288 | Splitting a 64-bit address into extension and low word loses nothing. |

## Left out

- The platform layer (`src/seco_os_abs_linux.c`: device-file open/read/write/ioctl, NVM storage files, the zlib CRC-32) is not modelled. Only its observable contract appears, as the scripted `Transport.Port`.
- The test harness (`test/she_test.c`) is out of scope. Its golden MAC vectors depend on the secure element's AES-CMAC, which is not visible.
- Heap allocation appears only as `Allocate`/`Release` trace events, not as memory.
- Several things come from headers that are not part of this model: the message structs, `she_fill_cmd_msg_hdr`, the AHAB opcodes and response codes, the algorithm and flag selectors, and `SEC_MEM_SHORT_ADDR_MASK`. Their values here are placeholders. Properties rely only on their distinctness. The word packing of the header (command byte and size-in-words byte) and of sub-word fields is this model's own choice. The message sizes come from the field lists the engine fills in.
- Messages.RoundTrip: proved only in the direction decode(encode(m)) == m. Bits the model does not carry (header version and tag, padding) make the other direction false for arbitrary words.
- Commands.LoadKey: the C struct may be larger than its header. The engine fills in only the header, so the model sends a header-only request.
- The session handle is not an argument of the command functions. The script stands for the session's channel.
- Concurrency, retry and timeouts are absent, because the code has none.
- The code never reads the INIT response code, so an open that the secure element rejects still configures the shared buffer and returns a handle. The model follows the code (`Sessions.InitResponseCodeIgnored`).
- A buffer mapping that fails returns address 0, and the code never tests for it. The model follows the code: a failure is caught only when it breaks the IV/input extension comparison (`Commands.InputMappingFailureCaughtByExtension`).
- The hardware constraint is that all addresses of one command share an extension. The code compares only the IV with the input, and the model follows the code (`Commands.OutputExtensionNotChecked`).
- There are eight stubs, with `init_rng` and `rnd` separate, and the model has all eight.
