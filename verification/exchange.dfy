/** One command/response exchange (`she_send_msg_and_get_resp`) and the
    classification every implemented command applies to its outcome. */
module Exchange {
  import opened Base
  import opened Messages
  import opened Status
  import opened Transport

  /** The outcome of an exchange: the response when one was received in
      full, and the calls made. */
  datatype Exchanged = Exchanged(reply: Option<Response>, calls: seq<Call>)
  {
    /** The helper's C return value: 0 on success, -1 otherwise. */
    function Status(): Int32
    {
      if reply.Some? then 0 else -1
    }
  }

  /** Sends `cmd` (`cmdLen` bytes) and reads a `rspLen`-byte response.
      Both lengths must cover at least the header word; a short or failed
      write or read fails the exchange, and nothing is retried. */
  function SendMsgAndGetResp(cmd: Message, cmdLen: Uint32, rspLen: Uint32, p: Port): (x: Exchanged)
    ensures x.Status() == 0 <==>
              4 <= cmdLen && 4 <= rspLen && p.sent == AsInt32(cmdLen) && p.read == AsInt32(rspLen)
    ensures x.reply.Some? ==> x.reply.value == p.reply
    ensures cmdLen < 4 || rspLen < 4 ==> x.calls == []
    ensures 4 <= cmdLen && 4 <= rspLen ==>
              x.calls == [Send(cmd, cmdLen)] + (if p.sent == AsInt32(cmdLen) then [Read(rspLen)] else [])
  {
    if cmdLen < 4 || rspLen < 4 then Exchanged(None, [])
    else if p.sent != AsInt32(cmdLen) then Exchanged(None, [Send(cmd, cmdLen)])
    else if p.read != AsInt32(rspLen) then Exchanged(None, [Send(cmd, cmdLen), Read(rspLen)])
    else Exchanged(Some(p.reply), [Send(cmd, cmdLen), Read(rspLen)])
  }

  /** For lengths a message can have, "the full length" is the length
      itself: the exchange succeeds iff send and read each returned
      exactly the requested byte count. */
  lemma ExchangeSucceedsIff(cmd: Message, cmdLen: Uint32, rspLen: Uint32, p: Port)
    requires cmdLen < TwoTo31 && rspLen < TwoTo31
    ensures SendMsgAndGetResp(cmd, cmdLen, rspLen, p).Status() == 0 <==>
              4 <= cmdLen && 4 <= rspLen && p.sent == cmdLen && p.read == rspLen
  {
  }

  /** At most one send and one read; no read after a short send. */
  lemma ExchangeNeverRetries(cmd: Message, cmdLen: Uint32, rspLen: Uint32, p: Port)
    ensures Count(SendMsgAndGetResp(cmd, cmdLen, rspLen, p).calls, KSend) <= 1
    ensures Count(SendMsgAndGetResp(cmd, cmdLen, rspLen, p).calls, KRead) <= 1
    ensures p.sent != AsInt32(cmdLen) ==> Count(SendMsgAndGetResp(cmd, cmdLen, rspLen, p).calls, KRead) == 0
  {
    var calls := SendMsgAndGetResp(cmd, cmdLen, rspLen, p).calls;
    if 4 <= cmdLen && 4 <= rspLen {
      assert calls[1..] == [] || calls[1..] == [Read(rspLen)];
    }
  }

  /** The error kind of a command after its exchange: a failed exchange
      is a general error, a response code other than success is
      classified by the table, and only a success code is no error. */
  function Classify(x: Exchanged): (e: SheErr)
    ensures e == NoError <==> x.reply.Some? && x.reply.value.rspCode == SuccessInd
    ensures x.reply.None? ==> e == GeneralError
    ensures x.reply.Some? && x.reply.value.rspCode != SuccessInd ==> e == MapStatus(x.reply.value.rspCode)
  {
    if x.Status() != 0 then GeneralError
    else if x.reply.value.rspCode != SuccessInd then MapStatus(x.reply.value.rspCode)
    else NoError
  }
}
