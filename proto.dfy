/**
 * The framing codec of lib/proto.py: every message travels as a 4-byte
 * unsigned big-endian length followed by that many payload bytes. The JSON
 * text of the payload is opaque here.
 */
module Proto {
  import opened Wrappers

  newtype byte = x: int | 0 <= x < 256

  const HeaderSize: nat := 4
  const ChunkSize: nat := 1024

  /** The kinds of message, in declaration order; on the wire a message carries its kind's name. */
  datatype MessageType =
    | RoomConnectionRequest
    | RoomCreationRequest
    | RegisterRequest
    | LoginRequest
    | WhoamiRequest
    | LogoutRequest
    | RoomCloseUpdate
    | RoomJoinUpdate
    | GameStartUpdate
    | Ok
    | Error
  {
    /** The `.name` string sent in a message's "type" field. */
    function Name(): string
    {
      match this
      case RoomConnectionRequest => "ROOM_CONNECTION_REQUEST"
      case RoomCreationRequest => "ROOM_CREATION_REQUEST"
      case RegisterRequest => "REGISTER_REQUEST"
      case LoginRequest => "LOGIN_REQUEST"
      case WhoamiRequest => "WHOAMI_REQUEST"
      case LogoutRequest => "LOGOUT_REQUEST"
      case RoomCloseUpdate => "ROOM_CLOSE_UPDATE"
      case RoomJoinUpdate => "ROOM_JOIN_UPDATE"
      case GameStartUpdate => "GAME_START_UPDATE"
      case Ok => "OK"
      case Error => "ERROR"
    }
  }

  /** The kind whose name is `s`, if any: what comparing a "type" field against `.name` decides. */
  function ParseType(s: string): (r: Option<MessageType>)
    ensures r.Some? ==> r.value.Name() == s
  {
    if s == "ROOM_CONNECTION_REQUEST" then Some(RoomConnectionRequest)
    else if s == "ROOM_CREATION_REQUEST" then Some(RoomCreationRequest)
    else if s == "REGISTER_REQUEST" then Some(RegisterRequest)
    else if s == "LOGIN_REQUEST" then Some(LoginRequest)
    else if s == "WHOAMI_REQUEST" then Some(WhoamiRequest)
    else if s == "LOGOUT_REQUEST" then Some(LogoutRequest)
    else if s == "ROOM_CLOSE_UPDATE" then Some(RoomCloseUpdate)
    else if s == "ROOM_JOIN_UPDATE" then Some(RoomJoinUpdate)
    else if s == "GAME_START_UPDATE" then Some(GameStartUpdate)
    else if s == "OK" then Some(Ok)
    else if s == "ERROR" then Some(Error)
    else None
  }

  /** Names identify kinds: parsing a kind's name gives that kind back. */
  lemma ParseTypeName(t: MessageType)
    ensures ParseType(t.Name()) == Some(t)
  {
  }

  /** 256 to the power `width`: the number of values `width` bytes can hold. */
  function Pow256(width: nat): (p: nat)
    ensures p >= 1
  {
    if width == 0 then 1 else 256 * Pow256(width - 1)
  }

  /** One more than the largest payload length a header can carry (2^32). */
  const MaxFrameLength: nat := 0x1_0000_0000

  lemma MaxFrameLengthIsHeaderRange()
    ensures Pow256(HeaderSize) == MaxFrameLength
  {
  }

  /** `int.to_bytes(width)` in big-endian order, defined when `n` fits. */
  function ToBytes(n: nat, width: nat): (r: seq<byte>)
    requires n < Pow256(width)
    ensures |r| == width
  {
    if width == 0 then [] else ToBytes(n / 256, width - 1) + [(n % 256) as byte]
  }

  /** `int.from_bytes` in big-endian order: the unsigned number the bytes spell. */
  function FromBytes(s: seq<byte>): (n: nat)
    ensures n < Pow256(|s|)
  {
    if s == [] then 0 else FromBytes(s[..|s| - 1]) * 256 + s[|s| - 1] as nat
  }

  /** Decoding a big-endian encoding gives back the number. */
  lemma {:induction false} FromBytesToBytes(n: nat, width: nat)
    requires n < Pow256(width)
    ensures FromBytes(ToBytes(n, width)) == n
  {
    if width > 0 {
      var s := ToBytes(n, width);
      assert s[..|s| - 1] == ToBytes(n / 256, width - 1);
      FromBytesToBytes(n / 256, width - 1);
    }
  }

  /** Encoding the decoded number in as many bytes gives back the bytes: a header is a bijection. */
  lemma {:induction false} ToBytesFromBytes(s: seq<byte>)
    ensures ToBytes(FromBytes(s), |s|) == s
  {
    if s != [] {
      var init := s[..|s| - 1];
      ToBytesFromBytes(init);
      assert FromBytes(s) / 256 == FromBytes(init);
      assert init + [s[|s| - 1]] == s;
    }
  }

  /** Why encoding fails: `int.to_bytes` raises OverflowError for a length of 2^32 or more. */
  datatype FrameError = LengthOverflow

  /** The bytes send_message writes for `payload`: the length header, then the payload. */
  function EncodeFrame(payload: seq<byte>): (r: Result<seq<byte>, FrameError>)
    ensures r.Success? <==> |payload| < MaxFrameLength
    ensures r.Success? ==> |r.value| == HeaderSize + |payload|
    ensures r.Success? ==> FromBytes(r.value[..HeaderSize]) == |payload|
    ensures r.Success? ==> r.value[HeaderSize..] == payload
  {
    if |payload| < MaxFrameLength then
      MaxFrameLengthIsHeaderRange();
      var header := ToBytes(|payload|, HeaderSize);
      FromBytesToBytes(|payload|, HeaderSize);
      assert (header + payload)[..HeaderSize] == header;
      Success(header + payload)
    else
      Failure(LengthOverflow)
  }

  /**
   * One `recv(n)` on a connection whose unread bytes are `source`: the next
   * `n` bytes, or all that remain when fewer are left, and what stays unread.
   */
  function Recv(source: seq<byte>, n: nat): (r: (seq<byte>, seq<byte>))
    ensures r.0 + r.1 == source
    ensures |r.0| == if n <= |source| then n else |source|
  {
    if n <= |source| then (source[..n], source[n..]) else (source, [])
  }

  /**
   * What recv_message takes from `stream`: the payload announced by the
   * 4-byte header, and the bytes left unread after it.
   */
  function ReadFrame(stream: seq<byte>): (r: (seq<byte>, seq<byte>))
    ensures |stream| < HeaderSize ==> r == ([], [])
    ensures |stream| >= HeaderSize ==>
              && r.0 + r.1 == stream[HeaderSize..]
              && |r.0| == if FromBytes(stream[..HeaderSize]) <= |stream| - HeaderSize
                          then FromBytes(stream[..HeaderSize]) else |stream| - HeaderSize
  {
    var (header, body) := Recv(stream, HeaderSize);
    Recv(body, FromBytes(header))
  }

  /** The sum of the request sizes in `xs`. */
  function Sum(xs: seq<nat>): nat
  {
    if xs == [] then 0 else Sum(xs[..|xs| - 1]) + xs[|xs| - 1]
  }

  lemma SumSnoc(xs: seq<nat>, x: nat)
    ensures Sum(xs + [x]) == Sum(xs) + x
  {
    assert (xs + [x])[..|xs|] == xs;
  }

  /** A socket as a sink: `sent` holds every byte written to it so far. */
  class Socket {
    var sent: seq<byte>

    constructor ()
      ensures sent == []
    {
      sent := [];
    }
  }

  /**
   * send_message: the header is computed first, so an oversized payload raises
   * before anything is written; otherwise the header and then the payload are
   * written.
   */
  method SendMessage(socket: Socket, payload: seq<byte>) returns (r: Outcome<FrameError>)
    modifies socket
    ensures r.Pass? <==> |payload| < MaxFrameLength
    ensures r.Pass? ==> socket.sent == old(socket.sent) + EncodeFrame(payload).value
    ensures r.Fail? ==> socket.sent == old(socket.sent)
  {
    if |payload| >= MaxFrameLength {
      return Fail(LengthOverflow);
    }
    MaxFrameLengthIsHeaderRange();
    var header := ToBytes(|payload|, HeaderSize);
    socket.sent := socket.sent + header;
    socket.sent := socket.sent + payload;
    r := Pass;
  }

  /** Two consecutive reads take what one read of the combined size takes. */
  lemma RecvTwice(source: seq<byte>, a: nat, b: nat)
    ensures Recv(source, a).0 + Recv(Recv(source, a).1, b).0 == Recv(source, a + b).0
    ensures Recv(Recv(source, a).1, b).1 == Recv(source, a + b).1
  {
    if a + b <= |source| {
      assert source[..a] + source[a..][..b] == source[..a + b];
    }
  }

  /**
   * The payload loop of recv_message: asks for ChunkSize bytes while more
   * than that are outstanding, then for the remainder. Returns the bytes
   * read, the bytes left unread, and the sizes passed to `recv` in order.
   */
  method RecvBody(body: seq<byte>, length: nat) returns (payload: seq<byte>, rest: seq<byte>, chunks: seq<nat>)
    ensures (payload, rest) == Recv(body, length)
    ensures Sum(chunks) == length
    ensures forall k :: 0 <= k < |chunks| ==> 0 < chunks[k] <= ChunkSize
    ensures forall k :: 0 <= k < |chunks| - 1 ==> chunks[k] == ChunkSize
  {
    var messageLength: nat := length;
    ghost var requested: nat := 0;
    chunks := [];
    payload, rest := [], body;
    while messageLength > ChunkSize
      invariant payload == Recv(body, requested).0 && rest == Recv(body, requested).1
      invariant Sum(chunks) == requested && requested + messageLength == length
      invariant forall k :: 0 <= k < |chunks| ==> chunks[k] == ChunkSize
      decreases messageLength
    {
      RecvTwice(body, requested, ChunkSize);
      var chunk;
      chunk, rest := Recv(rest, ChunkSize).0, Recv(rest, ChunkSize).1;
      payload := payload + chunk;
      SumSnoc(chunks, ChunkSize);
      chunks := chunks + [ChunkSize];
      requested, messageLength := requested + ChunkSize, messageLength - ChunkSize;
    }
    if messageLength > 0 {
      RecvTwice(body, requested, messageLength);
      var chunk;
      chunk, rest := Recv(rest, messageLength).0, Recv(rest, messageLength).1;
      payload := payload + chunk;
      SumSnoc(chunks, messageLength);
      chunks := chunks + [messageLength];
    }
  }

  /**
   * recv_message, with the connection's unread bytes as `stream`. Returns the
   * payload, the bytes left unread, and the sizes passed to `recv` in order.
   */
  method RecvMessage(stream: seq<byte>) returns (payload: seq<byte>, rest: seq<byte>, requests: seq<nat>)
    ensures (payload, rest) == ReadFrame(stream)
    ensures |requests| >= 1 && requests[0] == HeaderSize
    ensures Sum(requests[1..]) == FromBytes(Recv(stream, HeaderSize).0)
    ensures forall k :: 1 <= k < |requests| ==> 0 < requests[k] <= ChunkSize
    ensures forall k :: 1 <= k < |requests| - 1 ==> requests[k] == ChunkSize
  {
    var header, body := Recv(stream, HeaderSize).0, Recv(stream, HeaderSize).1;
    var chunks;
    payload, rest, chunks := RecvBody(body, FromBytes(header));
    requests := [HeaderSize] + chunks;
    assert requests[1..] == chunks;
  }

  /**
   * The wire round trip: reading back what send_message wrote, followed by
   * anything else, yields the original payload and leaves the rest unread.
   */
  lemma {:induction false} RoundTrip(payload: seq<byte>, after: seq<byte>)
    requires EncodeFrame(payload).Success?
    ensures ReadFrame(EncodeFrame(payload).value + after) == (payload, after)
  {
    var frame := EncodeFrame(payload).value;
    var stream := frame + after;
    assert Recv(stream, HeaderSize).0 == frame[..HeaderSize];
    assert Recv(stream, HeaderSize).1 == payload + after;
    assert (payload + after)[..|payload|] == payload;
  }

  /** A zero header makes recv_message read no payload at all. */
  lemma EmptyFrame(stream: seq<byte>)
    requires |stream| >= HeaderSize && FromBytes(stream[..HeaderSize]) == 0
    ensures ReadFrame(stream) == ([], stream[HeaderSize..])
  {
  }
}
