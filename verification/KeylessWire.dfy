/**
 Keyless messages: reading a request from a byte stream, checking its opcode, and building
 the pong, data and error responses.
 */
module KeylessWire {
  import opened Commons
  import opened KeylessItems

  const MESSAGE_HEADER_LENGTH: nat := 8
  const BUF_PREFIX_LEN: nat := 15

  const SKI: Byte := 0x04
  const OPCODE: Byte := 0x11
  const PAYLOAD: Byte := 0x12

  datatype RequestError =
    | ClosedEarly
    | ReadFailed
    | UnexpectedVersion(major: Byte, minor: Byte)
    | CorruptedMessage
    | InvalidItemLength(tag: Byte)

  // ----- numbers on the wire -----

  type Id = x: int | 0 <= x < 0x1_0000_0000

  function ToBe(id: Id): (b: seq<Byte>)
    ensures |b| == 4
  {
    var hi, lo := id / 0x1_0000, id % 0x1_0000;
    [hi / 256, hi % 256, lo / 256, lo % 256]
  }

  function FromBe(b: seq<Byte>): Id
    requires |b| == 4
  {
    Length16(b, 0) * 0x1_0000 + Length16(b, 2)
  }

  /** Ids and lengths are in network order, and ids are read back as they were written. */
  lemma BeRoundTrip(id: Id)
    ensures FromBe(ToBe(id)) == id
    ensures var b := ToBe(id);
            (b[0] as int) * 0x100_0000 + (b[1] as int) * 0x1_0000 + (b[2] as int) * 0x100 + b[3] as int == id
    ensures forall hi: Byte, lo: Byte :: Length16([hi, lo], 0) == (hi as int) * 0x100 + lo as int
  {
  }

  /** The cast to a 16-bit length drops the higher bits. */
  function Cast16(n: nat): nat {
    n % 0x1_0000
  }

  // ----- what reading a message means -----

  /** The fields of a request that come from the wire. */
  datatype Fields = Fields(id: Id, opcode: Byte, ski: seq<Byte>, payload: seq<Byte>)

  ghost predicate OpcodesAreBytes(items: seq<Item>) {
    forall k :: 0 <= k < |items| && items[k].tag == OPCODE ==> |items[k].value| == 1
  }

  lemma {:induction false} LastOpcode(items: seq<Item>, none: Byte)
    requires OpcodesAreBytes(items)
    ensures |Last(items, OPCODE, [none])| == 1
  {
    if items != [] && items[|items| - 1].tag != OPCODE {
      LastOpcode(items[..|items| - 1], none);
    }
  }

  /** The request a body stands for: the last item of each kind counts. */
  ghost function Parsed(id: Id, body: seq<Byte>): Result<Fields, RequestError> {
    var w := WalkItems(body);
    if !OpcodesAreBytes(w.items) then Err(InvalidItemLength(OPCODE))
    else if !w.complete then Err(CorruptedMessage)
    else
      LastOpcode(w.items, 0);
      Ok(Fields(id, Last(w.items, OPCODE, [0])[0], Last(w.items, SKI, []), Last(w.items, PAYLOAD, [])))
  }

  /** The walk meets an opcode of a wrong length, or breaks off without one. */
  ghost predicate WalkFails(body: seq<Byte>, e: RequestError) {
    var w := WalkFrom(body, 0);
    if OpcodesAreBytes(w.items) then !w.complete && e == CorruptedMessage else e == InvalidItemLength(OPCODE)
  }

  lemma FailsParsed(id: Id, body: seq<Byte>, e: RequestError)
    requires WalkFails(body, e)
    ensures Parsed(id, body) == Err(e)
  {
    WalkFromIs(body, 0);
    assert body[0..] == body;
  }

  /** The message at the front of a stream that then ends or fails, and the bytes left after it. */
  ghost function ReadFrom(stream: seq<Byte>, msgCount: nat): Result<(Fields, seq<Byte>), RequestError> {
    var early := if msgCount == 0 then ClosedEarly else ReadFailed;
    if |stream| < MESSAGE_HEADER_LENGTH then Err(early)
    else if stream[0] != 1 || stream[1] != 0 then Err(UnexpectedVersion(stream[0], stream[1]))
    else
      var end := MESSAGE_HEADER_LENGTH + Length16(stream, 2);
      if |stream| < end then Err(early)
      else match Parsed(FromBe(stream[4..8]), stream[MESSAGE_HEADER_LENGTH..end])
           case Err(e) => Err(e)
           case Ok(f) => Ok((f, stream[end..]))
  }

  // ----- requests -----

  datatype Digest = Md5Sha1 | Sha1 | Sha224 | Sha256 | Sha384 | Sha512

  function DigestSize(d: Digest): nat {
    match d
    case Md5Sha1 => 36
    case Sha1 => 20
    case Sha224 => 28
    case Sha256 => 32
    case Sha384 => 48
    case Sha512 => 64
  }

  datatype Padding = Pkcs1 | NoPadding

  datatype Action =
    | NotSet
    | Ping
    | RsaDecrypt(padding: Padding)
    | RsaSign(digest: Digest)
    | RsaPssSign(digest: Digest)
    | EcdsaSign(digest: Digest)
    | Ed25519Sign

  /** The action an opcode asks for; the low four bits of a signing opcode name the digest. */
  function Asked(opcode: Byte): Action {
    if opcode == 0x01 then RsaDecrypt(Pkcs1)
    else if opcode == 0x08 then RsaDecrypt(NoPadding)
    else if opcode == 0x18 then Ed25519Sign
    else if opcode == 0xF1 then Ping
    else if 0x02 <= opcode <= 0x07 then RsaSign(DigestOf(opcode % 16))
    else if 0x12 <= opcode <= 0x17 then EcdsaSign(DigestOf(opcode % 16))
    else if 0x35 <= opcode <= 0x37 then RsaPssSign(DigestOf(opcode % 16))
    else NotSet
  }

  function DigestOf(nibble: nat): Digest
    requires 2 <= nibble <= 7
  {
    match nibble
    case 2 => Md5Sha1
    case 3 => Sha1
    case 4 => Sha224
    case 5 => Sha256
    case 6 => Sha384
    case 7 => Sha512
  }

  predicate IsSign(a: Action) {
    a.RsaSign? || a.RsaPssSign? || a.EcdsaSign?
  }

  /** The opcodes that are accepted with a payload of `n` bytes. */
  ghost predicate Accepts(opcode: Byte, n: nat) {
    || opcode in {0x01, 0x08, 0x18, 0xF1}
    || (opcode in {0x02, 0x12} && n == 36)
    || (opcode in {0x03, 0x13} && n == 20)
    || (opcode in {0x04, 0x14} && n == 28)
    || (opcode in {0x05, 0x15, 0x35} && n == 32)
    || (opcode in {0x06, 0x16, 0x36} && n == 48)
    || (opcode in {0x07, 0x17, 0x37} && n == 64)
  }

  /** The actions by opcode, and the payload length of each digest that is signed. */
  lemma OpcodeTable(opcode: Byte)
    ensures Asked(0x01) == RsaDecrypt(Pkcs1) && Asked(0x08) == RsaDecrypt(NoPadding)
    ensures Asked(0x18) == Ed25519Sign && Asked(0xF1) == Ping
    ensures Asked(0x02) == RsaSign(Md5Sha1) && Asked(0x03) == RsaSign(Sha1) && Asked(0x04) == RsaSign(Sha224)
    ensures Asked(0x05) == RsaSign(Sha256) && Asked(0x06) == RsaSign(Sha384) && Asked(0x07) == RsaSign(Sha512)
    ensures Asked(0x12) == EcdsaSign(Md5Sha1) && Asked(0x13) == EcdsaSign(Sha1) && Asked(0x14) == EcdsaSign(Sha224)
    ensures Asked(0x15) == EcdsaSign(Sha256) && Asked(0x16) == EcdsaSign(Sha384) && Asked(0x17) == EcdsaSign(Sha512)
    ensures Asked(0x35) == RsaPssSign(Sha256) && Asked(0x36) == RsaPssSign(Sha384) && Asked(0x37) == RsaPssSign(Sha512)
    ensures Asked(opcode) != NotSet <==> exists n: nat :: Accepts(opcode, n)
    ensures IsSign(Asked(opcode)) ==> forall n: nat :: n == DigestSize(Asked(opcode).digest) <==> Accepts(opcode, n)
  {
    if IsSign(Asked(opcode)) {
      assert Accepts(opcode, DigestSize(Asked(opcode).digest));
    } else if Asked(opcode) != NotSet {
      assert Accepts(opcode, 0);
    }
  }

  class KeylessRequest {
    const id: Id
    var opcode: Byte
    var action: Action
    var ski: seq<Byte>
    var payload: seq<Byte>

    constructor (id: Id)
      ensures this.id == id && opcode == 0 && action == NotSet && ski == [] && payload == []
    {
      this.id, opcode, action, ski, payload := id, 0, NotSet, [], [];
    }

    ghost function Wire(): Fields
      reads this
    {
      Fields(id, opcode, ski, payload)
    }

    /** The fields are those of an empty request after `items`. */
    ghost predicate Reflects(items: seq<Item>)
      reads this
    {
      [opcode] == Last(items, OPCODE, [0]) && ski == Last(items, SKI, []) && payload == Last(items, PAYLOAD, [])
    }

    method ParseValue(tag: Byte, v: seq<Byte>, ghost seen: seq<Item>) returns (r: Result<(), RequestError>)
      requires Reflects(seen)
      modifies this`ski, this`opcode, this`payload
      ensures r == if tag == OPCODE && |v| != 1 then Err(InvalidItemLength(tag)) else Ok(())
      ensures r.Ok? ==> Reflects(seen + [Item(tag, v)])
    {
      assert (seen + [Item(tag, v)])[..|seen|] == seen;
      if tag == SKI {
        ski := v;
      } else if tag == OPCODE {
        if |v| != 1 {
          return Err(InvalidItemLength(tag));
        }
        opcode := v[0];
        assert v == [v[0]];
      } else if tag == PAYLOAD {
        payload := v;
      }
      return Ok(());
    }

    lemma ReflectsParsed(body: seq<Byte>, items: seq<Item>)
      requires Reflects(items) && OpcodesAreBytes(items) && WalkFrom(body, 0) == Walk(items, true)
      ensures Parsed(id, body) == Ok(Wire())
    {
      WalkFromIs(body, 0);
      assert body[0..] == body;
    }

    /** One round of the walk: reads the item at `offset` and returns where it ends. */
    method ParseItem(v: seq<Byte>, offset: nat, ghost seen: seq<Item>)
      returns (r: Result<nat, RequestError>, ghost met: seq<Item>)
      requires Reflects(seen) && OpcodesAreBytes(seen) && WalkAt(v, offset, seen)
      modifies this`ski, this`opcode, this`payload
      ensures r.Err? ==> WalkFails(v, r.error)
      ensures r.Ok? ==> offset < r.value <= |v| && Reflects(met) && OpcodesAreBytes(met)
      ensures r.Ok? ==> WalkedTo(v, r.value, met)
    {
      met := seen;
      if offset + ITEM_HEADER_LENGTH > |v| {
        WalkEnds(v, offset, seen);
        return Err(CorruptedMessage), met;
      }
      var tag := v[offset];
      var vl := Length16(v, offset + 1);
      var at := offset + ITEM_HEADER_LENGTH;
      if at + vl > |v| {
        WalkEnds(v, offset, seen);
        return Err(CorruptedMessage), met;
      }
      WalkNext(v, offset, seen);
      var value := v[at..at + vl];
      var parsed := ParseValue(tag, value, seen);
      if parsed.Err? {
        return Err(parsed.error), met;
      }
      return Ok(at + vl), seen + [Item(tag, value)];
    }

    method ParseTlv(v: seq<Byte>) returns (r: Result<(), RequestError>)
      requires Reflects([])
      modifies this`ski, this`opcode, this`payload
      ensures r.Ok? ==> Parsed(id, v) == Ok(Wire())
      ensures r.Err? ==> Parsed(id, v) == Err(r.error)
    {
      var offset: nat := 0;
      ghost var seen: seq<Item> := [];
      while true
        invariant Reflects(seen) && OpcodesAreBytes(seen) && WalkAt(v, offset, seen)
        decreases |v| - offset
      {
        var item;
        item, seen := ParseItem(v, offset, seen);
        if item.Err? {
          FailsParsed(id, v, item.error);
          return Err(item.error);
        }
        offset := item.value;
        if offset == |v| {
          ReflectsParsed(v, seen);
          return Ok(());
        }
      }
    }

    /** Sets the action, or answers with an error response that carries the request's id. */
    method VerifyOpcode() returns (r: Result<(), ErrorResponse>)
      modifies this`action
      ensures r.Ok? <==> Asked(opcode) != NotSet && (IsSign(Asked(opcode)) ==> |payload| == DigestSize(Asked(opcode).digest))
      ensures r.Ok? <==> Accepts(opcode, |payload|)
      ensures action == if r.Ok? then Asked(opcode) else old(action)
      ensures r.Err? ==> r.error == WithCode(NewError(id), if Asked(opcode) == NotSet then BadOpCode else FormatError)
    {
      var asked;
      match opcode {
        case 0x01 => asked := RsaDecrypt(Pkcs1);
        case 0x02 => asked := RsaSign(Md5Sha1);
        case 0x03 => asked := RsaSign(Sha1);
        case 0x04 => asked := RsaSign(Sha224);
        case 0x05 => asked := RsaSign(Sha256);
        case 0x06 => asked := RsaSign(Sha384);
        case 0x07 => asked := RsaSign(Sha512);
        case 0x08 => asked := RsaDecrypt(NoPadding);
        case 0x12 => asked := EcdsaSign(Md5Sha1);
        case 0x13 => asked := EcdsaSign(Sha1);
        case 0x14 => asked := EcdsaSign(Sha224);
        case 0x15 => asked := EcdsaSign(Sha256);
        case 0x16 => asked := EcdsaSign(Sha384);
        case 0x17 => asked := EcdsaSign(Sha512);
        case 0x18 => asked := Ed25519Sign;
        case 0x35 => asked := RsaPssSign(Sha256);
        case 0x36 => asked := RsaPssSign(Sha384);
        case 0x37 => asked := RsaPssSign(Sha512);
        case 0xF1 => asked := Ping;
        case _ => return Err(WithCode(NewError(id), BadOpCode));
      }
      if IsSign(asked) && DigestSize(asked.digest) != |payload| {
        return Err(WithCode(NewError(id), FormatError));
      }
      action := asked;
      return Ok(());
    }

    method PingPong() returns (pong: Result<seq<Byte>, ()>)
      ensures pong == if action == Ping then Ok(Pong(id, payload)) else Err(())
    {
      if action == Ping {
        return Ok(Pong(id, payload));
      }
      return Err(());
    }
  }

  /** Reads one message; on success also returns the bytes left in the stream. */
  method Read(stream: seq<Byte>, msgCount: nat) returns (r: Result<KeylessRequest, RequestError>, left: seq<Byte>)
    ensures match ReadFrom(stream, msgCount)
            case Ok((f, rest)) => r.Ok? && fresh(r.value) && r.value.Wire() == f && r.value.action == NotSet && left == rest
            case Err(e) => r == Err(e)
  {
    left := stream;
    if |stream| < MESSAGE_HEADER_LENGTH {
      return Err(if msgCount == 0 then ClosedEarly else ReadFailed), left;
    }
    var major, minor := stream[0], stream[1];
    if major != 1 || minor != 0 {
      return Err(UnexpectedVersion(major, minor)), left;
    }
    var len := Length16(stream, 2);
    left := stream[MESSAGE_HEADER_LENGTH..];
    if |left| < len {
      return Err(if msgCount == 0 then ClosedEarly else ReadFailed), left;
    }
    var buf := left[..len];
    assert buf == stream[MESSAGE_HEADER_LENGTH..MESSAGE_HEADER_LENGTH + len];
    left := left[len..];
    assert left == stream[MESSAGE_HEADER_LENGTH + len..];
    var request := new KeylessRequest(FromBe(stream[4..8]));
    var parsed := request.ParseTlv(buf);
    if parsed.Err? {
      return Err(parsed.error), left;
    }
    return Ok(request), left;
  }

  // ----- responses -----

  function Header(id: Id, msgLen: nat): (r: seq<Byte>)
    requires msgLen < 0x1_0000
    ensures |r| == MESSAGE_HEADER_LENGTH
  {
    [1, 0, msgLen / 256, msgLen % 256] + ToBe(id)
  }

  /** The opcode item and the header of the payload item. */
  function Items(opcode: Byte, itemLen: nat): (r: seq<Byte>)
    requires itemLen < 0x1_0000
    ensures |r| == BUF_PREFIX_LEN - MESSAGE_HEADER_LENGTH
  {
    [OPCODE, 0, 1, opcode, PAYLOAD, itemLen / 256, itemLen % 256]
  }

  function Pong(id: Id, payload: seq<Byte>): seq<Byte> {
    var itemLen := Cast16(|payload|);
    var msgLen := Cast16(|payload| + BUF_PREFIX_LEN - MESSAGE_HEADER_LENGTH);
    Header(id, msgLen) + Items(0xF2, itemLen) + payload
  }

  datatype ErrorCode =
    | NoError | CryptographyFailure | KeyNotFound | ReadError | VersionMismatch | BadOpCode
    | UnexpectedOpCode | FormatError | InternalError | CertNotFound | Expired | RemoteConfiguration

  const CODES: seq<ErrorCode> :=
    [NoError, CryptographyFailure, KeyNotFound, ReadError, VersionMismatch, BadOpCode,
     UnexpectedOpCode, FormatError, InternalError, CertNotFound, Expired, RemoteConfiguration]

  datatype ErrorResponse = ErrorResponse(id: Id, buf: seq<Byte>)

  function NewError(id: Id): ErrorResponse {
    ErrorResponse(id, Header(id, 8) + Items(0xFF, 1) + [0])
  }

  function CodeByte(code: ErrorCode): (b: Byte)
    ensures b < |CODES| && CODES[b] == code
  {
    match code
    case NoError => 0
    case CryptographyFailure => 1
    case KeyNotFound => 2
    case ReadError => 3
    case VersionMismatch => 4
    case BadOpCode => 5
    case UnexpectedOpCode => 6
    case FormatError => 7
    case InternalError => 8
    case CertNotFound => 9
    case Expired => 10
    case RemoteConfiguration => 11
  }

  function WithCode(e: ErrorResponse, code: ErrorCode): ErrorResponse
    requires |e.buf| == BUF_PREFIX_LEN + 1
  {
    e.(buf := e.buf[BUF_PREFIX_LEN := CodeByte(code)])
  }

  function CodeOf(e: ErrorResponse): ErrorCode
    requires |e.buf| == BUF_PREFIX_LEN + 1 && e.buf[BUF_PREFIX_LEN] < |CODES|
  {
    CODES[e.buf[BUF_PREFIX_LEN]]
  }

  /** The prefix of a response whose lengths are not known yet. */
  function Unframed(id: Id, opcode: Byte): (r: seq<Byte>)
    ensures |r| == BUF_PREFIX_LEN
  {
    Header(id, 0) + Items(opcode, 0)
  }

  class KeylessDataResponse {
    const id: Id
    var buf: seq<Byte>

    /** The room for the payload is not initialised: `noise` stands for what is there. */
    constructor (id: Id, keySize: nat, noise: seq<Byte>)
      requires |noise| == keySize
      ensures this.id == id && buf == Unframed(id, 0xF0) + noise
    {
      this.id := id;
      buf := Unframed(id, 0xF0) + noise;
    }

    /** A key operation writes its output at the front of the room for the payload. */
    method FillPayload(data: seq<Byte>)
      requires BUF_PREFIX_LEN + |data| <= |buf|
      modifies this`buf
      ensures buf == old(buf)[..BUF_PREFIX_LEN] + data + old(buf)[BUF_PREFIX_LEN + |data|..]
    {
      buf := buf[..BUF_PREFIX_LEN] + data + buf[BUF_PREFIX_LEN + |data|..];
    }

    /** Cuts the buffer and patches both lengths in place. */
    method FinalizePayload(payloadLen: nat)
      requires BUF_PREFIX_LEN + payloadLen <= |buf|
      modifies this`buf
      ensures buf == Framed(old(buf)[..BUF_PREFIX_LEN + payloadLen])
    {
      var bufLen := payloadLen + BUF_PREFIX_LEN;
      buf := buf[..bufLen];
      var itemLen := Cast16(payloadLen);
      buf := buf[13 := itemLen / 256];
      buf := buf[14 := itemLen % 256];
      var msgLen := Cast16(bufLen - MESSAGE_HEADER_LENGTH);
      buf := buf[2 := msgLen / 256];
      buf := buf[3 := msgLen % 256];
    }
  }

  /** The bytes with a big-endian number written over two of them. */
  ghost function Patch16(buf: seq<Byte>, at: nat, n: nat): (r: seq<Byte>)
    requires at + 1 < |buf| && n < 0x1_0000
    ensures |r| == |buf|
  {
    buf[at := n / 256][at + 1 := n % 256]
  }

  /** The same bytes with the two lengths that their number calls for. */
  ghost function Framed(buf: seq<Byte>): seq<Byte>
    requires |buf| >= BUF_PREFIX_LEN
  {
    Patch16(Patch16(buf, 13, Cast16(|buf| - BUF_PREFIX_LEN)), 2, Cast16(|buf| - MESSAGE_HEADER_LENGTH))
  }

  // ----- responses read back -----

  /** The message with one opcode item and one payload item. */
  ghost function Response(id: Id, opcode: Byte, payload: seq<Byte>): seq<Byte>
    requires |payload| < 0x1_0000 - 7
  {
    Header(id, |payload| + 7) + (Items(opcode, |payload|) + payload)
  }

  lemma BodyOfTwo(opcode: Byte, payload: seq<Byte>)
    requires |payload| < 0x1_0000 - 7
    ensures EncodeItems([Item(OPCODE, [opcode]), Item(PAYLOAD, payload)])
            == Items(opcode, |payload|) + payload
  {
    var items := [Item(OPCODE, [opcode]), Item(PAYLOAD, payload)];
    assert items[1..] == [Item(PAYLOAD, payload)];
    assert EncodeItems(items[1..]) == EncodeItem(items[1]) + [];
    assert EncodeItem(items[0]) == [OPCODE, 0, 1, opcode];
  }

  lemma TwoItemsParse(id: Id, opcode: Byte, payload: seq<Byte>)
    requires |payload| < 0x1_0000 - 7
    ensures Parsed(id, Items(opcode, |payload|) + payload) == Ok(Fields(id, opcode, [], payload))
  {
    var items := [Item(OPCODE, [opcode]), Item(PAYLOAD, payload)];
    BodyOfTwo(opcode, payload);
    CompleteIff(EncodeItems(items), items);
    assert items[..1] == [items[0]];
    assert Last(items, OPCODE, [0]) == Last(items[..1], OPCODE, [0]) == [opcode];
    assert items[..1][..0] == [];
    assert Last(items[..1], SKI, []) == [];
  }

  /** Reading such a message gives back its id, opcode and payload, and all that follows it. */
  lemma ResponseReads(id: Id, opcode: Byte, payload: seq<Byte>, rest: seq<Byte>, msgCount: nat)
    requires |payload| < 0x1_0000 - 7
    ensures ReadFrom(Response(id, opcode, payload) + rest, msgCount) == Ok((Fields(id, opcode, [], payload), rest))
  {
    var body := Items(opcode, |payload|) + payload;
    var stream := Response(id, opcode, payload) + rest;
    TwoItemsParse(id, opcode, payload);
    assert Length16(stream, 2) == |body|;
    assert stream[4..8] == ToBe(id);
    BeRoundTrip(id);
    assert stream[8..8 + |body|] == body;
    assert stream[8 + |body|..] == rest;
  }

  /** No field is longer than the body it came from. */
  lemma PayloadWithinBody(id: Id, body: seq<Byte>)
    requires Parsed(id, body).Ok?
    ensures |Parsed(id, body).value.payload| <= |body|
  {
    WalkSplits(body);
    LastTakesRoom(WalkItems(body).items, PAYLOAD);
  }

  lemma Associates(a: seq<Byte>, b: seq<Byte>, c: seq<Byte>)
    ensures a + b + c == a + (b + c)
  {
  }

  lemma PongIs(id: Id, payload: seq<Byte>)
    requires |payload| <= 65528
    ensures Pong(id, payload) == Response(id, 0xF2, payload)
  {
    assert Cast16(|payload|) == |payload| && Cast16(|payload| + 7) == |payload| + 7;
    Associates(Header(id, |payload| + 7), Items(0xF2, |payload|), payload);
  }

  lemma PongFits(id: Id, payload: seq<Byte>, msgCount: nat)
    requires |payload| <= 65528
    ensures ReadFrom(Pong(id, payload), msgCount) == Ok((Fields(id, 0xF2, [], payload), []))
  {
    PongIs(id, payload);
    ResponseReads(id, 0xF2, payload, [], msgCount);
    assert Response(id, 0xF2, payload) + [] == Response(id, 0xF2, payload);
  }

  /** A longer payload makes the length wrap, and less than the payload is read. */
  lemma PongTooLong(id: Id, payload: seq<Byte>, msgCount: nat, r: (Fields, seq<Byte>))
    requires |payload| > 65528 && ReadFrom(Pong(id, payload), msgCount) == Ok(r)
    ensures |r.0.payload| < |payload|
  {
    var stream := Pong(id, payload);
    var n := Length16(stream, 2);
    assert n == Cast16(|payload| + 7) < |payload|;
    PayloadWithinBody(FromBe(stream[4..8]), stream[8..8 + n]);
  }

  /** A pong is read back as what it was built from exactly if the payload is at most 65528 bytes. */
  lemma PongReadsIff(id: Id, payload: seq<Byte>, msgCount: nat)
    ensures |payload| <= 65528 <==> ReadFrom(Pong(id, payload), msgCount) == Ok((Fields(id, 0xF2, [], payload), []))
  {
    var r := (Fields(id, 0xF2, [], payload), []);
    if |payload| <= 65528 {
      PongFits(id, payload, msgCount);
    } else if ReadFrom(Pong(id, payload), msgCount) == Ok(r) {
      PongTooLong(id, payload, msgCount, r);
    }
  }

  /** A request body of at most 65535 bytes that asks for a ping leaves room for the pong's framing. */
  lemma PingFits(id: Id, body: seq<Byte>, f: Fields)
    requires |body| <= 65535 && Parsed(id, body) == Ok(f) && f.opcode == 0xF1
    ensures |f.payload| <= 65528 && Cast16(|f.payload|) == |f.payload| && Cast16(|f.payload| + 7) == |f.payload| + 7
  {
    var items := WalkItems(body).items;
    WalkSplits(body);
    LastOpcode(items, 0);
    PingRoom(items);
  }

  lemma PingRoom(items: seq<Item>)
    requires AllFit(items) && OpcodesAreBytes(items) && Last(items, OPCODE, [0]) != [0]
    ensures Last(items, PAYLOAD, []) != [] ==> |Last(items, PAYLOAD, [])| + 7 <= |EncodeItems(items)|
  {
    OpcodeWasThere(items);
    if Last(items, PAYLOAD, []) != [] {
      TwoTakeRoom(items, OPCODE, PAYLOAD);
    }
  }

  lemma {:induction false} OpcodeWasThere(items: seq<Item>)
    requires OpcodesAreBytes(items) && Last(items, OPCODE, [0]) != [0]
    ensures Last(items, OPCODE, []) == Last(items, OPCODE, [0]) && |Last(items, OPCODE, [])| == 1
  {
    if items != [] && items[|items| - 1].tag != OPCODE {
      OpcodeWasThere(items[..|items| - 1]);
    }
  }

  /** The bound is tight: a body of 65535 bytes can carry a ping of 65528. */
  lemma PingTight(id: Id, payload: seq<Byte>)
    requires |payload| == 65528
    ensures var body := EncodeItems([Item(OPCODE, [0xF1]), Item(PAYLOAD, payload)]);
            && |body| == 65535
            && Parsed(id, body) == Ok(Fields(id, 0xF1, [], payload))
  {
    BodyOfTwo(0xF1, payload);
    TwoItemsParse(id, 0xF1, payload);
  }

  /** Every ping that can be read is answered by a pong with the same id and payload. */
  method AnswerPing(stream: seq<Byte>, msgCount: nat) returns (pong: Result<seq<Byte>, ()>)
    ensures match ReadFrom(stream, msgCount)
            case Ok((f, _)) =>
              && (pong.Ok? <==> f.opcode == 0xF1)
              && (pong.Ok? ==> ReadFrom(pong.value, msgCount) == Ok((Fields(f.id, 0xF2, [], f.payload), [])))
            case Err(_) => pong == Err(())
  {
    var r, left := Read(stream, msgCount);
    if r.Err? {
      return Err(());
    }
    var verified := r.value.VerifyOpcode();
    if verified.Err? {
      return Err(());
    }
    pong := r.value.PingPong();
    if pong.Ok? {
      var n := Length16(stream, 2);
      PingFits(FromBe(stream[4..8]), stream[8..8 + n], r.value.Wire());
      PongReadsIff(r.value.id, r.value.payload, msgCount);
    }
  }

  /** A data response is read back as the output of the key operation exactly if that is at most 65528 bytes. */
  method DataResponse(id: Id, keySize: nat, noise: seq<Byte>, data: seq<Byte>) returns (message: seq<Byte>)
    requires |noise| == keySize && |data| <= keySize
    ensures forall n: nat :: |data| <= 65528 <==> ReadFrom(message, n) == Ok((Fields(id, 0xF0, [], data), []))
  {
    var rsp := new KeylessDataResponse(id, keySize, noise);
    rsp.FillPayload(data);
    assert rsp.buf[..BUF_PREFIX_LEN + |data|] == Unframed(id, 0xF0) + data;
    rsp.FinalizePayload(|data|);
    message := rsp.buf;
    forall n: nat ensures |data| <= 65528 <==> ReadFrom(message, n) == Ok((Fields(id, 0xF0, [], data), [])) {
      FramedReadsIff(id, 0xF0, data, n);
    }
  }

  lemma FramedReadsIff(id: Id, opcode: Byte, data: seq<Byte>, msgCount: nat)
    ensures |data| <= 65528 <==>
            ReadFrom(Framed(Unframed(id, opcode) + data), msgCount) == Ok((Fields(id, opcode, [], data), []))
  {
    var r := (Fields(id, opcode, [], data), []);
    if |data| <= 65528 {
      FramedReads(id, opcode, data, msgCount);
    } else if ReadFrom(Framed(Unframed(id, opcode) + data), msgCount) == Ok(r) {
      FramedTooLong(id, opcode, data, msgCount, r);
    }
  }

  lemma FramedTooLong(id: Id, opcode: Byte, data: seq<Byte>, msgCount: nat, r: (Fields, seq<Byte>))
    requires |data| > 65528 && ReadFrom(Framed(Unframed(id, opcode) + data), msgCount) == Ok(r)
    ensures |r.0.payload| < |data|
  {
    var stream := Framed(Unframed(id, opcode) + data);
    var n := Length16(stream, 2);
    assert n == Cast16(|data| + 7) < |data|;
    PayloadWithinBody(FromBe(stream[4..8]), stream[8..8 + n]);
  }

  /** Patching the lengths of an unframed message makes it readable. */
  lemma FramedReads(id: Id, opcode: Byte, data: seq<Byte>, msgCount: nat)
    requires |data| <= 65528
    ensures ReadFrom(Framed(Unframed(id, opcode) + data), msgCount) == Ok((Fields(id, opcode, [], data), []))
  {
    FramedIs(id, opcode, data);
    ResponseReads(id, opcode, data, [], msgCount);
    assert Response(id, opcode, data) + [] == Response(id, opcode, data);
  }

  lemma FramedIs(id: Id, opcode: Byte, data: seq<Byte>)
    requires |data| <= 65528
    ensures Framed(Unframed(id, opcode) + data) == Response(id, opcode, data)
  {
    var h, i, n := Header(id, 0), Items(opcode, 0), |data|;
    Associates(h, i, data);
    assert Cast16(n) == n && Cast16(n + 7) == n + 7;
    PatchRight(h, i + data, 5, n);
    PatchLeft(i, data, 5, n);
    PatchLeft(h, Items(opcode, n) + data, 2, n + 7);
    PatchedParts(id, opcode, n);
  }

  lemma PatchedParts(id: Id, opcode: Byte, n: nat)
    requires n <= 65528
    ensures Patch16(Items(opcode, 0), 5, n) == Items(opcode, n)
    ensures Patch16(Header(id, 0), 2, n + 7) == Header(id, n + 7)
  {
  }

  lemma PatchLeft(a: seq<Byte>, b: seq<Byte>, at: nat, n: nat)
    requires at + 1 < |a| && n < 0x1_0000
    ensures Patch16(a + b, at, n) == Patch16(a, at, n) + b
  {
  }

  lemma PatchRight(a: seq<Byte>, b: seq<Byte>, at: nat, n: nat)
    requires at + 1 < |b| && n < 0x1_0000
    ensures Patch16(a + b, |a| + at, n) == a + Patch16(b, at, n)
  {
  }

  /** The bytes of an error response around its id. */
  lemma ErrorBytes(id: Id, code: ErrorCode)
    ensures var e := WithCode(NewError(id), code);
            && e.buf[..4] == [1, 0, 0, 8] && FromBe(e.buf[4..8]) == id
            && e.buf[8..] == [0x11, 0, 1, 0xFF, 0x12, 0, 1, CodeByte(code)]
  {
    BeRoundTrip(id);
    assert WithCode(NewError(id), code).buf[4..8] == ToBe(id);
  }

  /** An error response is read back as its code, and tells its code itself. */
  lemma ErrorReads(id: Id, code: ErrorCode, msgCount: nat)
    ensures var e := WithCode(NewError(id), code);
            && CodeOf(e) == code
            && ReadFrom(e.buf, msgCount) == Ok((Fields(id, 0xFF, [], [CodeByte(code)]), []))
  {
    var e := WithCode(NewError(id), code);
    ResponseReads(id, 0xFF, [CodeByte(code)], [], msgCount);
    assert e.buf == Response(id, 0xFF, [CodeByte(code)]) + [];
  }
}
