/** The transport as the engine sees it: a scripted oracle that answers
    each platform call, and the trace of the calls the engine makes.

    The platform layer (`she_platform_*`, a device file with read, write
    and ioctl) is not part of this model. Its observable contract is:
    send and read return a byte count or a negative error, a buffer
    mapping returns a 64-bit secure-element address (0 when the mapping
    ioctl fails), and configuring the shared buffer returns a status. */
module Transport {
  import opened Base
  import opened Messages

  /** A caller buffer, by address; 0 is NULL. */
  type Ptr = nat
  const Null: Ptr := 0

  /** An open platform channel. */
  type Channel = nat

  /** The DATA_BUF_* flags of a buffer mapping request. */
  datatype BufFlags = BufFlags(isInput: bool, useSecMem: bool, shortAddr: bool)

  /** The fields of a response the engine reads. */
  datatype Response = Response(rspCode: bv32, verificationStatus: bv32,
                               sharedBufOffset: bv32, sharedBufSize: bv32)

  /** One call the engine makes, in the order it makes them. `Allocate`
      and `Release` stand for the session handle's memory. */
  datatype Call =
    | Allocate
    | Release
    | OpenChannel(channelOpened: Option<Channel>)
    | CloseChannel(channel: Channel)
    | MapBuffer(buf: Ptr, size: nat, flags: BufFlags)
    | Send(msg: Message, len: nat)
    | Read(len: nat)
    | ConfigureShared(sharedOffset: bv32, sharedSize: bv32)

  /** The script for one command: the addresses the successive mapping
      requests return, the byte counts send and read return, and the
      response the read delivers. A mapping whose ioctl fails returns
      address 0: a 0 entry anywhere in `mapAddrs` is such a failure, and so
      is every request past the end of the script, which lets a short
      script stand for "every later mapping fails". */
  datatype Port = Port(mapAddrs: seq<bv64>, sent: Int32, read: Int32, reply: Response)

  /** The address the `i`-th mapping request of a command gets. */
  function MapReply(p: Port, i: nat): bv64
  {
    if i < |p.mapAddrs| then p.mapAddrs[i] else 0
  }

  datatype CallKind = KAllocate | KRelease | KOpened | KOpenFailed | KClose | KMap | KSend | KRead | KConfigure

  function KindOf(c: Call): CallKind
  {
    match c
    case Allocate => KAllocate
    case Release => KRelease
    case OpenChannel(o) => if o.Some? then KOpened else KOpenFailed
    case CloseChannel(_) => KClose
    case MapBuffer(_, _, _) => KMap
    case Send(_, _) => KSend
    case Read(_) => KRead
    case ConfigureShared(_, _) => KConfigure
  }

  /** How many calls of kind `k` a trace holds. */
  function Count(calls: seq<Call>, k: CallKind): (n: nat)
    ensures n <= |calls|
  {
    if |calls| == 0 then 0
    else (if KindOf(calls[0]) == k then 1 else 0) + Count(calls[1..], k)
  }

  lemma {:induction false} CountAppend(a: seq<Call>, b: seq<Call>, k: CallKind)
    ensures Count(a + b, k) == Count(a, k) + Count(b, k)
    decreases |a|
  {
    if |a| == 0 {
      assert a + b == b;
    } else {
      assert (a + b)[1..] == a[1..] + b;
      CountAppend(a[1..], b, k);
    }
  }

  /** No call of the trace reaches the secure element. */
  predicate NoExchange(calls: seq<Call>)
  {
    forall i :: 0 <= i < |calls| ==> !calls[i].Send? && !calls[i].Read?
  }
}
