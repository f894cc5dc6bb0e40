/** The message check word of `she_compute_msg_crc`: a running XOR over the
    whole 32-bit words of a message. */
module Crc {
  import opened Base

  /** Reference definition: the XOR of every word of `ws`. */
  function XorAll(ws: seq<bv32>): bv32
  {
    if |ws| == 0 then 0 else XorAll(ws[..|ws| - 1]) ^ ws[|ws| - 1]
  }

  lemma XorAllSnoc(ws: seq<bv32>, w: bv32)
    ensures XorAll(ws + [w]) == XorAll(ws) ^ w
  {
    assert (ws + [w])[..|ws|] == ws;
  }

  /** The fold distributes over concatenation. */
  lemma {:induction false} XorAllAppend(a: seq<bv32>, b: seq<bv32>)
    ensures XorAll(a + b) == XorAll(a) ^ XorAll(b)
    decreases |b|
  {
    if |b| == 0 {
      assert a + b == a;
    } else {
      var b' := b[..|b| - 1];
      assert a + b == (a + b') + [b[|b| - 1]];
      XorAllSnoc(a + b', b[|b| - 1]);
      XorAllAppend(a, b');
      XorAllSnoc(b', b[|b| - 1]);
      assert b' + [b[|b| - 1]] == b;
    }
  }

  /** Appending the XOR of a message to it makes the whole message XOR to 0. */
  lemma XorAllWithCheckWord(ws: seq<bv32>)
    ensures XorAll(ws + [XorAll(ws)]) == 0
  {
    XorAllSnoc(ws, XorAll(ws));
  }

  /** The check word detects any single corrupted word: if a message
      XORs to 0, changing one of its words makes it XOR to something else. */
  lemma SingleWordCorruptionDetected(before: seq<bv32>, w: bv32, w': bv32, after: seq<bv32>)
    requires XorAll(before + [w] + after) == 0
    requires w' != w
    ensures XorAll(before + [w'] + after) != 0
  {
    XorAllAppend(before + [w], after);
    XorAllAppend(before + [w'], after);
    XorAllSnoc(before, w);
    XorAllSnoc(before, w');
  }

  /** The check word over the first `msgLen / 4` words of `msg` (a
      trailing partial word is ignored, as the C division truncates). */
  function MsgCrc(msg: seq<bv32>, msgLen: Uint32): (crc: bv32)
    requires msgLen / 4 <= |msg|
    ensures msgLen < 4 ==> crc == 0
    ensures XorAll(msg[..msgLen / 4] + [crc]) == 0
  {
    XorAllWithCheckWord(msg[..msgLen / 4]);
    XorAll(msg[..msgLen / 4])
  }

  /** The loop of `she_compute_msg_crc`, word by word. */
  method ComputeMsgCrc(msg: seq<bv32>, msgLen: Uint32) returns (crc: bv32)
    requires msgLen / 4 <= |msg|
    ensures crc == MsgCrc(msg, msgLen)
    ensures crc == XorAll(msg[..msgLen / 4])
  {
    var nbWords := msgLen / 4;
    crc := 0;
    var i := 0;
    while i < nbWords
      invariant 0 <= i <= nbWords
      invariant crc == XorAll(msg[..i])
    {
      assert msg[..i + 1] == msg[..i] + [msg[i]];
      XorAllSnoc(msg[..i], msg[i]);
      crc := crc ^ msg[i];
      i := i + 1;
    }
  }
}
