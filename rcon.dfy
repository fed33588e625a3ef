/**
 * The RCON session (`XOR_RCON`): the socket, the session key captured from the
 * first frame after connecting, and the send/receive exchange. The network is
 * abstracted: a connection is the sequence of frames the server will deliver
 * on it, and what the client writes is recorded frame by frame.
 */
module Rcon {
  import opened Wrappers
  import opened Text
  import opened Cipher

  /** Buffer size of the `recv` that captures the key. */
  const KeyFrameSize: nat := 4096
  /** Buffer size of the `recv` that reads a reply. */
  const ReplySize: nat := 8192
  /** Marker whose presence in the login reply means the password was accepted. */
  const SuccessMarker: string := "SUCCESS"

  /** `socket` is None before the first connect; `close` closes it but keeps the object. */
  datatype SocketState = NoSocket | Open | Closed

  /**
   * NoKey is the `ValueError` of `xor_crypt`; NotConnected is what
   * using a socket that is None or closed raises.
   */
  datatype SessionError = NoKey | NotConnected

  /** `not self.xor_key` is false: a key is present and non-empty. */
  predicate HasKey(key: Option<Bytes>) {
    key.Some? && key.value != []
  }

  /** The byte stream that a sequence of frames carries. */
  function Flatten(frames: seq<Bytes>): Bytes {
    if frames == [] then [] else frames[0] + Flatten(frames[1..])
  }

  /**
   * One `recv(size)`: at most `size` bytes of the next pending frame; the rest
   * of that frame stays pending. No pending frame, or an empty one, is the
   * peer having closed the connection, and `recv` then returns b"".
   */
  function Recv(inbound: seq<Bytes>, size: nat): (r: (Bytes, seq<Bytes>))
    requires size > 0
    ensures |r.0| <= size
    ensures r.0 == [] <==> inbound == [] || inbound[0] == []
    ensures r.0 + Flatten(r.1) == Flatten(inbound)
  {
    if inbound == [] || inbound[0] == [] then ([], inbound)
    else if |inbound[0]| <= size then (inbound[0], inbound[1..])
    else
      var chunk, left := inbound[0][..size], inbound[0][size..];
      assert Flatten([left] + inbound[1..]) == left + Flatten(inbound[1..]);
      assert chunk + left == inbound[0];
      (chunk, [left] + inbound[1..])
  }

  /**
   * What `receive` returns for the bytes `chunk` one read produced: nothing
   * for an empty read, otherwise the decoding of the plaintext whose
   * obfuscation under `key` is `chunk`.
   */
  function ReplyText(key: Bytes, chunk: Bytes, decode: Bytes -> string): (text: string)
    requires key != []
    ensures chunk == [] ==> text == ""
    ensures chunk != [] ==> exists plain :: XorBytes(key, plain) == chunk && text == decode(plain)
  {
    if chunk == [] then ""
    else
      XorBytesInvolution(key, chunk);
      decode(XorBytes(key, chunk))
  }

  /**
   * `n` replies read one after another from `inbound`, and the frames still
   * pending afterwards.
   */
  function Exchange(key: Bytes, inbound: seq<Bytes>, n: nat, decode: Bytes -> string): (r: (seq<string>, seq<Bytes>))
    requires key != []
    ensures |r.0| == n
  {
    if n == 0 then ([], inbound)
    else
      var (replies, pending) := Exchange(key, inbound, n - 1, decode);
      var (chunk, rest) := Recv(pending, ReplySize);
      (replies + [ReplyText(key, chunk, decode)], rest)
  }

  /**
   * A reply the server obfuscated with the session key, and that fits one
   * read, is read back as the decoding of its plaintext.
   */
  lemma ReplyRoundTrip(key: Bytes, plain: Bytes, later: seq<Bytes>, decode: Bytes -> string)
    requires key != [] && 0 < |plain| <= ReplySize
    ensures Recv([XorBytes(key, plain)] + later, ReplySize) == (XorBytes(key, plain), later)
    ensures ReplyText(key, XorBytes(key, plain), decode) == decode(plain)
  {
    XorBytesAt(key, plain);
    XorBytesInvolution(key, plain);
    assert ([XorBytes(key, plain)] + later)[1..] == later;
  }

  class RconSession {
    const host: string
    const port: int
    const password: string
    /** `str.encode('utf-8')` */
    const encode: string -> Bytes
    /** `bytes.decode('utf-8', errors='ignore')` */
    const decode: Bytes -> string
    var socket: SocketState
    var key: Option<Bytes>
    /** Frames the server has yet to deliver on the current connection. */
    var inbound: seq<Bytes>
    /** Frames written on the current connection, one per `send`. */
    var sent: seq<Bytes>

    constructor (host: string, port: int, password: string, encode: string -> Bytes, decode: Bytes -> string)
      ensures this.host == host && this.port == port && this.password == password
      ensures this.encode == encode && this.decode == decode
      ensures socket == NoSocket && key == None && inbound == [] && sent == []
    {
      this.host, this.port, this.password := host, port, password;
      this.encode, this.decode := encode, decode;
      socket, key, inbound, sent := NoSocket, None, [], [];
    }

    /**
     * `receive`: one read of at most ReplySize bytes; an empty read is "",
     * anything else is de-obfuscated and decoded.
     */
    method Receive() returns (r: Result<string, SessionError>)
      modifies this`inbound
      ensures socket != Open ==> r == Failure(NotConnected) && inbound == old(inbound)
      ensures socket == Open ==>
        var (chunk, rest) := Recv(old(inbound), ReplySize);
        inbound == rest &&
        r == if chunk == [] then Success("")
             else if !HasKey(key) then Failure(NoKey)
             else Success(decode(XorBytes(key.value, chunk)))
    {
      if socket != Open {
        return Failure(NotConnected);
      }
      var (raw, rest) := Recv(inbound, ReplySize);
      inbound := rest;
      if raw == [] {
        return Success("");
      }
      var plain := XorCrypt(key, raw);
      if plain.Failure? {
        return Failure(NoKey);
      }
      r := Success(decode(plain.value));
    }

    /**
     * `send`: obfuscate the encoded command (which fails before anything is
     * written when there is no key), write it, and read one reply.
     */
    method Send(command: string) returns (r: Result<string, SessionError>)
      modifies this`inbound, this`sent
      ensures !HasKey(key) ==> r == Failure(NoKey) && inbound == old(inbound) && sent == old(sent)
      ensures HasKey(key) && socket != Open ==> r == Failure(NotConnected) && inbound == old(inbound) && sent == old(sent)
      ensures HasKey(key) && socket == Open ==>
        var (chunk, rest) := Recv(old(inbound), ReplySize);
        sent == old(sent) + [XorBytes(key.value, encode(command))] &&
        inbound == rest &&
        r == Success(ReplyText(key.value, chunk, decode))
    {
      var encrypted := XorCrypt(key, encode(command));
      if encrypted.Failure? {
        return Failure(NoKey);
      }
      if socket != Open {
        return Failure(NotConnected);
      }
      sent := sent + [encrypted.value];
      r := Receive();
    }

    /**
     * `connect`: open a new connection (whose server-side frames are
     * `frames`), take the first read as the key, send `Login <password>` and
     * report whether the reply contains SUCCESS.
     */
    method Connect(frames: seq<Bytes>) returns (r: Result<bool, SessionError>)
      modifies this
      ensures socket == Open
      ensures key == Some(Recv(frames, KeyFrameSize).0)
      ensures r.Failure? <==> key.value == []
      ensures r.Failure? ==> r.error == NoKey && sent == [] && inbound == Recv(frames, KeyFrameSize).1
      ensures r.Success? ==>
        var (chunk, rest) := Recv(Recv(frames, KeyFrameSize).1, ReplySize);
        sent == [XorBytes(key.value, encode("Login " + password))] &&
        inbound == rest &&
        r.value == Contains(ReplyText(key.value, chunk, decode), SuccessMarker)
    {
      socket, sent := Open, [];
      var (first, rest) := Recv(frames, KeyFrameSize);
      key, inbound := Some(first), rest;
      var reply := Send("Login " + password);
      if reply.Failure? {
        return Failure(reply.error);
      }
      r := Success(Contains(reply.value, SuccessMarker));
    }

    /** `close`: closes an existing socket; the key is kept until the next connect overwrites it. */
    method Close()
      modifies this`socket
      ensures socket == if old(socket) == NoSocket then NoSocket else Closed
    {
      if socket != NoSocket {
        socket := Closed;
      }
    }
  }

  /**
   * The handshake and one fetch against a server that sends the key
   * 0xAB 0xCD, accepts the login and answers the fetch with `log`: the client
   * is logged in, returns the decoded reply unchanged and has written exactly
   * the two obfuscated commands.
   */
  method LoginAndFetch(encode: string -> Bytes, decode: Bytes -> string, accepted: Bytes, log: Bytes)
    returns (loggedIn: bool, fetched: string, wire: seq<Bytes>)
    requires 0 < |accepted| <= ReplySize && Contains(decode(accepted), SuccessMarker)
    requires 0 < |log| <= ReplySize
    ensures loggedIn && fetched == decode(log)
    ensures wire == [XorBytes([0xAB, 0xCD], encode("Login secret")), XorBytes([0xAB, 0xCD], encode("showlog 1"))]
  {
    var k: Bytes := [0xAB, 0xCD];
    var session := new RconSession("127.0.0.1", 9999, "secret", encode, decode);
    var loginReply, logReply := XorBytes(k, accepted), XorBytes(k, log);
    var frames := [k, loginReply, logReply];
    assert Recv(frames, KeyFrameSize) == (k, [loginReply, logReply]);
    ReplyRoundTrip(k, accepted, [logReply], decode);
    assert [loginReply, logReply] == [loginReply] + [logReply];
    assert "Login " + session.password == "Login secret";
    var login := session.Connect(frames);
    assert login == Success(true);
    ReplyRoundTrip(k, log, [], decode);
    assert session.inbound == [logReply] + [];
    var reply := session.Send("showlog 1");
    loggedIn := login == Success(true);
    fetched := if reply.Success? then reply.value else "";
    wire := session.sent;
  }
}
