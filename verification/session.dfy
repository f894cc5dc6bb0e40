/** Session lifecycle: `she_open_session` (allocate the handle, open the
    platform channel, INIT handshake, configure the shared buffer) and
    `she_close_session`. */
module Sessions {
  import opened Base
  import opened Messages
  import opened Transport
  import opened Exchange

  /** The session handle; `phdl` is the platform channel, absent (NULL)
      when opening the channel failed. */
  datatype Handle = Handle(phdl: Option<Channel>)

  /** What the platform answers during an open: whether the handle
      allocation succeeds, the channel the platform opens (if any), the
      script of the INIT exchange, and the shared-buffer configuration
      status. */
  datatype OpenScript = OpenScript(allocOk: bool, channel: Option<Channel>, init: Port, configStatus: Int32)

  datatype Opened = Opened(session: Option<Handle>, calls: seq<Call>)

  /** Closes a handle: the channel if there is one, then the handle's
      memory; a NULL handle is left alone. Never reports a failure. */
  function CloseSession(hdl: Option<Handle>): (calls: seq<Call>)
    ensures hdl.None? ==> calls == []
    ensures Count(calls, KRelease) == (if hdl.Some? then 1 else 0)
    ensures Count(calls, KClose) == (if hdl.Some? && hdl.value.phdl.Some? then 1 else 0)
    ensures forall i :: 0 <= i < |calls| ==> KindOf(calls[i]) in {KClose, KRelease}
    ensures hdl.Some? && hdl.value.phdl.Some? ==> calls[0] == CloseChannel(hdl.value.phdl.value)
  {
    match hdl
    case None => []
    case Some(h) =>
      if h.phdl.Some? then [CloseChannel(h.phdl.value), Release] else [Release]
  }

  /** The INIT command: a header only. */
  const InitMessage: Message := InitReq(Header(InitCmd, InitMsgLen))

  /** Opens a session. A handle is returned only when every step
      succeeds; on any failure whatever was acquired is released. */
  function OpenSession(s: OpenScript): (r: Opened)
    ensures r.session.Some? <==>
              s.allocOk && s.channel.Some? && s.init.sent == InitMsgLen && s.init.read == InitRspLen
              && s.configStatus == 0
    ensures r.session.Some? ==> r.session.value.phdl == s.channel
    ensures !s.allocOk ==> r.calls == []
    ensures s.allocOk ==> |r.calls| >= 2 && r.calls[..2] == [Allocate, OpenChannel(s.channel)]
    ensures s.allocOk && s.channel.Some? ==> |r.calls| >= 3 && r.calls[2] == Send(InitMessage, InitMsgLen)
    ensures r.session.Some? ==>
              r.calls[|r.calls| - 1] == ConfigureShared(s.init.reply.sharedBufOffset, s.init.reply.sharedBufSize)
  {
    if !s.allocOk then Opened(None, [])
    else
      var hdl := Handle(s.channel);
      var acquired := [Allocate, OpenChannel(s.channel)];
      if s.channel.None? then Opened(None, acquired + CloseSession(Some(hdl)))
      else
        var x := SendMsgAndGetResp(InitMessage, InitMsgLen, InitRspLen, s.init);
        if x.Status() != 0 then Opened(None, acquired + x.calls + CloseSession(Some(hdl)))
        else
          var configure := [ConfigureShared(x.reply.value.sharedBufOffset, x.reply.value.sharedBufSize)];
          if s.configStatus != 0 then Opened(None, acquired + x.calls + configure + CloseSession(Some(hdl)))
          else Opened(Some(hdl), acquired + x.calls + configure)
  }

  /** As written, the INIT response code is never inspected: the outcome
      of an open, handle and calls alike, is the same whatever code the
      secure element answers, so a rejected handshake still configures the
      shared buffer and yields a session. */
  lemma InitResponseCodeIgnored(s: OpenScript, code: bv32)
    ensures OpenSession(s.(init := s.init.(reply := s.init.reply.(rspCode := code)))) == OpenSession(s)
    ensures s.allocOk && s.channel.Some? && s.init.sent == InitMsgLen && s.init.read == InitRspLen
            && s.configStatus == 0 ==>
              OpenSession(s.(init := s.init.(reply := s.init.reply.(rspCode := code)))).session.Some?
  {
  }

  /** Cleanup on every failure path: on failure the handle is released
      exactly when it was allocated, and the channel is closed exactly
      once when it was opened and never otherwise; on success nothing is
      released. */
  lemma OpenSessionCleanup(s: OpenScript)
    ensures var r := OpenSession(s);
            Count(r.calls, KRelease) == (if r.session.None? && s.allocOk then 1 else 0)
    ensures var r := OpenSession(s);
            Count(r.calls, KClose) == (if r.session.None? && s.allocOk && s.channel.Some? then 1 else 0)
    ensures var r := OpenSession(s);
            Count(r.calls, KAllocate) == (if s.allocOk then 1 else 0)
    ensures var r := OpenSession(s);
            Count(r.calls, KOpened) == (if s.allocOk && s.channel.Some? then 1 else 0)
  {
    if s.allocOk {
      var x := SendMsgAndGetResp(InitMessage, InitMsgLen, InitRspLen, s.init);
      AcquiredCounts(s.channel);
      ExchangeCounts(x.calls, s.init);
      ConfigureCounts(ConfigureStep(x));
      OpenSessionCount(s, KRelease);
      OpenSessionCount(s, KClose);
      OpenSessionCount(s, KAllocate);
      OpenSessionCount(s, KOpened);
    }
  }

  /** The calls of kind `k` an open makes, part by part: acquiring, the
      INIT exchange and configuration once the channel is open, and the
      cleanup when the open failed. */
  lemma OpenSessionCount(s: OpenScript, k: CallKind)
    requires s.allocOk
    ensures var r := OpenSession(s);
            var x := SendMsgAndGetResp(InitMessage, InitMsgLen, InitRspLen, s.init);
            Count(r.calls, k)
            == Count([Allocate, OpenChannel(s.channel)], k)
               + (if s.channel.Some? then Count(x.calls, k) + Count(ConfigureStep(x), k) else 0)
               + (if r.session.None? then Count(CloseSession(Some(Handle(s.channel))), k) else 0)
  {
    var acquired := [Allocate, OpenChannel(s.channel)];
    var closing := CloseSession(Some(Handle(s.channel)));
    if s.channel.None? {
      CountAppend(acquired, closing, k);
    } else {
      var x := SendMsgAndGetResp(InitMessage, InitMsgLen, InitRspLen, s.init);
      OpenSessionTrace(s);
      if OpenSession(s).session.None? {
        CountFour(acquired, x.calls, ConfigureStep(x), closing, k);
      } else {
        CountFour(acquired, x.calls, ConfigureStep(x), [], k);
      }
    }
  }

  /** The shared-buffer configuration call an open makes after its INIT
      exchange: one when the exchange succeeded, none otherwise. */
  function ConfigureStep(x: Exchanged): seq<Call>
  {
    if x.Status() == 0 then [ConfigureShared(x.reply.value.sharedBufOffset, x.reply.value.sharedBufSize)] else []
  }

  /** The trace of an open whose channel opened, in four parts: what it
      acquired, the INIT exchange, the configuration, and the cleanup when
      it failed. */
  lemma OpenSessionTrace(s: OpenScript)
    requires s.allocOk && s.channel.Some?
    ensures var r := OpenSession(s);
            var x := SendMsgAndGetResp(InitMessage, InitMsgLen, InitRspLen, s.init);
            r.calls == [Allocate, OpenChannel(s.channel)] + x.calls + ConfigureStep(x)
                       + (if r.session.None? then CloseSession(Some(Handle(s.channel))) else [])
  {
  }

  lemma CountFour(a: seq<Call>, b: seq<Call>, c: seq<Call>, d: seq<Call>, k: CallKind)
    ensures Count(a + b + c + d, k) == Count(a, k) + Count(b, k) + Count(c, k) + Count(d, k)
  {
    CountAppend(a, b, k);
    CountAppend(a + b, c, k);
    CountAppend(a + b + c, d, k);
  }

  lemma AcquiredCounts(channel: Option<Channel>)
    ensures Count([Allocate, OpenChannel(channel)], KAllocate) == 1
    ensures Count([Allocate, OpenChannel(channel)], KOpened) == (if channel.Some? then 1 else 0)
    ensures Count([Allocate, OpenChannel(channel)], KRelease) == 0
    ensures Count([Allocate, OpenChannel(channel)], KClose) == 0
  {
    assert [Allocate, OpenChannel(channel)][1..] == [OpenChannel(channel)];
  }

  lemma ConfigureCounts(calls: seq<Call>)
    requires |calls| <= 1 && forall i :: 0 <= i < |calls| ==> calls[i].ConfigureShared?
    ensures Count(calls, KRelease) == 0 && Count(calls, KClose) == 0
    ensures Count(calls, KAllocate) == 0 && Count(calls, KOpened) == 0
  {
  }

  /** The INIT exchange touches neither memory nor the channel's lifetime. */
  lemma ExchangeCounts(calls: seq<Call>, p: Port)
    requires calls == SendMsgAndGetResp(InitMessage, InitMsgLen, InitRspLen, p).calls
    ensures Count(calls, KRelease) == 0 && Count(calls, KClose) == 0
    ensures Count(calls, KAllocate) == 0 && Count(calls, KOpened) == 0
  {
  }

  /** Open followed by close never leaks: every allocation is released
      and every opened channel is closed, whatever the platform answers. */
  lemma OpenCloseBalanced(s: OpenScript)
    ensures var r := OpenSession(s);
            var all := r.calls + CloseSession(r.session);
            Count(all, KAllocate) == Count(all, KRelease) && Count(all, KOpened) == Count(all, KClose)
  {
    var r := OpenSession(s);
    OpenSessionCleanup(s);
    CountAppend(r.calls, CloseSession(r.session), KAllocate);
    CountAppend(r.calls, CloseSession(r.session), KRelease);
    CountAppend(r.calls, CloseSession(r.session), KOpened);
    CountAppend(r.calls, CloseSession(r.session), KClose);
  }
}
