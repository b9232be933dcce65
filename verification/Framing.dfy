/** The length-prefixed frame, and reading one off a stream that may arrive in any
    pieces. */
module Framing {
  import opened Prelude

  const MAX_FRAME_BYTES: nat := 64 * 1024

  datatype FramingError = Oversized(len: nat, max: nat)

  // ----- the codec

  /** Four bytes, most significant first. */
  function ToBigEndian(n: u32): (bytes: seq<byte>)
    ensures |bytes| == 4
  {
    [n / 0x100_0000, n / 0x1_0000 % 256, n / 256 % 256, n % 256]
  }

  function FromBigEndian(bytes: seq<byte>): (n: u32)
    requires |bytes| == 4
  {
    bytes[0] as int * 0x100_0000 + bytes[1] as int * 0x1_0000 + bytes[2] as int * 256 + bytes[3] as int
  }

  lemma BigEndianRoundTrip(n: u32)
    ensures FromBigEndian(ToBigEndian(n)) == n
  {
    var x := n / 256;
    var y := x / 256;
    assert n / 0x1_0000 == y && n / 0x100_0000 == y / 256;
    assert n == 256 * x + n % 256 && x == 256 * y + x % 256 && y == 256 * (y / 256) + y % 256;
  }

  /** `a` comes before `b` byte by byte: they agree up to some place and are in order there. */
  ghost predicate ComesBefore(a: seq<byte>, b: seq<byte>)
    requires |a| == |b|
  {
    exists k :: 0 <= k < |a| && a[k] < b[k] && a[..k] == b[..k]
  }

  /** Most significant byte first: prefixes are ordered as the lengths they write. */
  lemma PrefixesInOrder(m: u32, n: u32)
    ensures m < n <==> ComesBefore(ToBigEndian(m), ToBigEndian(n))
  {
    var (a, b) := (ToBigEndian(m), ToBigEndian(n));
    BigEndianRoundTrip(m);
    BigEndianRoundTrip(n);
    if m < n {
      var k := if a[0] != b[0] then 0 else if a[1] != b[1] then 1 else if a[2] != b[2] then 2 else 3;
      assert a[k] < b[k] && a[..k] == b[..k];
    }
    if k :| 0 <= k < 4 && a[k] < b[k] && a[..k] == b[..k] {
      assert forall i :: 0 <= i < k ==> a[i] == a[..k][i] == b[..k][i] == b[i];
    }
  }

  function DecodeFrameLen(header: seq<byte>): Result<nat, FramingError>
    requires |header| == 4
  {
    var len := FromBigEndian(header);
    if len > MAX_FRAME_BYTES then Err(Oversized(len, MAX_FRAME_BYTES)) else Ok(len)
  }

  /** A length written as a prefix is read back up to 65536, and refused by name above. */
  lemma LengthsReadBack(n: u32)
    ensures DecodeFrameLen(ToBigEndian(n)) == if n <= 65536 then Ok(n) else Err(Oversized(n, 65536))
  {
    BigEndianRoundTrip(n);
  }

  function EncodeFrame(payload: seq<byte>): Result<seq<byte>, FramingError> {
    if |payload| > MAX_FRAME_BYTES then Err(Oversized(|payload|, MAX_FRAME_BYTES))
    else Ok(ToBigEndian(|payload|) + payload)
  }

  /** The encoder as it is written, growing one vector. */
  method Encode(payload: seq<byte>) returns (framed: Result<seq<byte>, FramingError>)
    ensures framed == EncodeFrame(payload)
    ensures framed.Ok? <==> |payload| <= 65536
    ensures framed.Err? ==> framed.error == Oversized(|payload|, 65536)
  {
    if |payload| > MAX_FRAME_BYTES {
      return Err(Oversized(|payload|, MAX_FRAME_BYTES));
    }
    var bytes: seq<byte> := [];
    bytes := bytes + ToBigEndian(|payload|);
    bytes := bytes + payload;
    assert bytes == ToBigEndian(|payload|) + payload;
    return Ok(bytes);
  }

  // ----- a stream in pieces

  /** What successive reads of a socket meet: data in whatever pieces it arrives,
      interruptions, and possibly an error. After the last piece the peer has closed. */
  datatype Piece = Chunk(bytes: seq<byte>) | Interrupted | Failure

  /** The bytes that arrive before the first failure, however they are cut. */
  function Arriving(pieces: seq<Piece>): seq<byte> {
    if pieces == [] then []
    else match pieces[0]
      case Chunk(bytes) => bytes + Arriving(pieces[1..])
      case Interrupted => Arriving(pieces[1..])
      case Failure => []
  }

  /** Whether the arriving bytes end in a failure rather than a close. */
  predicate Breaks(pieces: seq<Piece>) {
    pieces != [] && (pieces[0].Failure? || Breaks(pieces[1..]))
  }

  predicate Proper(pieces: seq<Piece>) {
    forall k :: 0 <= k < |pieces| && pieces[k].Chunk? ==> pieces[k].bytes != []
  }

  /** How much reading is left in a stream, pieces and bytes together. */
  function Work(pieces: seq<Piece>): nat {
    if pieces == [] then 0
    else 1 + (if pieces[0].Chunk? then |pieces[0].bytes| else 0) + Work(pieces[1..])
  }

  datatype ReadResult = Read(count: nat) | Retry | IoError

  /** Taking some bytes off the first piece takes them off what arrives. */
  lemma RestOf(pieces: seq<Piece>, bytes: seq<byte>, count: nat)
    requires Proper(pieces) && pieces != [] && pieces[0] == Chunk(bytes) && 0 < count <= |bytes|
    ensures var rest := if count == |bytes| then pieces[1..] else [Chunk(bytes[count..])] + pieces[1..];
      && Proper(rest) && Arriving(pieces) == bytes[..count] + Arriving(rest)
      && (Breaks(rest) <==> Breaks(pieces)) && Work(rest) < Work(pieces)
  {
    assert bytes == bytes[..count] + bytes[count..];
    if count < |bytes| {
      var rest := [Chunk(bytes[count..])] + pieces[1..];
      assert rest[1..] == pieces[1..];
      assert bytes[..count] + (bytes[count..] + Arriving(pieces[1..])) == bytes + Arriving(pieces[1..]);
    }
  }

  method CopyInto(buf: array<byte>, from: nat, bytes: seq<byte>)
    requires from + |bytes| <= buf.Length
    modifies buf
    ensures buf[..from] == old(buf[..from]) && buf[from..from + |bytes|] == bytes
  {
    for i := 0 to |bytes|
      invariant buf[..from] == old(buf[..from])
      invariant buf[from..from + i] == bytes[..i]
    {
      buf[from + i] := bytes[i];
    }
  }

  class Stream {
    var pieces: seq<Piece>

    constructor (pieces: seq<Piece>)
      requires Proper(pieces)
      ensures this.pieces == pieces
    {
      this.pieces := pieces;
    }

    /** One read into `buf` from `from` on: at least one byte and at most one piece,
        zero only at the close. */
    method ReadSome(buf: array<byte>, from: nat) returns (result: ReadResult)
      requires Proper(pieces) && from < buf.Length
      modifies this, buf
      ensures Proper(pieces)
      ensures buf[..from] == old(buf[..from])
      ensures match result
        case Read(count) =>
          && from + count <= buf.Length
          && old(Arriving(pieces)) == buf[from..from + count] + Arriving(pieces)
          && (Breaks(pieces) <==> old(Breaks(pieces)))
          && (count == 0 <==> old(pieces) == [])
          && (count > 0 ==> Work(pieces) < old(Work(pieces)))
          && (count == 0 ==> pieces == [])
        case Retry =>
          && Arriving(pieces) == old(Arriving(pieces)) && (Breaks(pieces) <==> old(Breaks(pieces)))
          && Work(pieces) < old(Work(pieces))
        case IoError => old(Arriving(pieces)) == [] && old(Breaks(pieces))
    {
      if pieces == [] {
        return Read(0);
      }
      match pieces[0] {
        case Interrupted =>
          pieces := pieces[1..];
          return Retry;
        case Failure => return IoError;
        case Chunk(bytes) =>
          var count := Min(|bytes|, buf.Length - from);
          CopyInto(buf, from, bytes[..count]);
          RestOf(pieces, bytes, count);
          pieces := if count == |bytes| then pieces[1..] else [Chunk(bytes[count..])] + pieces[1..];
          return Read(count);
      }
    }
  }

  datatype ReadOutcome = Complete | Eof | Partial | Broken

  lemma Regroup(a: seq<byte>, b: seq<byte>, c: seq<byte>)
    ensures a + (b + c) == (a + b) + c
  {
  }

  lemma Closed()
    ensures Arriving([]) == [] && !Breaks([])
  {
  }

  /** Fills the buffer from whatever pieces arrive. The outcome and the bytes left
      depend only on what arrives and how it ends, not on the pieces. */
  method ReadFull(stream: Stream, buf: array<byte>) returns (outcome: ReadOutcome)
    requires Proper(stream.pieces)
    modifies stream, buf
    ensures Proper(stream.pieces)
    ensures outcome ==
      if old(|Arriving(stream.pieces)|) >= buf.Length then Complete
      else if old(Breaks(stream.pieces)) then Broken
      else if old(Arriving(stream.pieces)) == [] then Eof
      else Partial
    ensures outcome.Complete? ==>
      && buf[..] == old(Arriving(stream.pieces))[..buf.Length]
      && Arriving(stream.pieces) == old(Arriving(stream.pieces))[buf.Length..]
      && (Breaks(stream.pieces) <==> old(Breaks(stream.pieces)))
  {
    hide Arriving, Breaks, Work, Proper;
    var total := 0;
    ghost var arriving := Arriving(stream.pieces);
    ghost var breaks := Breaks(stream.pieces);
    while total < buf.Length
      invariant 0 <= total <= buf.Length && Proper(stream.pieces)
      invariant arriving == buf[..total] + Arriving(stream.pieces)
      invariant Breaks(stream.pieces) <==> breaks
      decreases Work(stream.pieces)
    {
      ghost var filled := buf[..total];
      var result := stream.ReadSome(buf, total);
      match result {
        case Read(count) =>
          if count == 0 {
            Closed();
            return if total == 0 then Eof else Partial;
          }
          Regroup(filled, buf[total..total + count], Arriving(stream.pieces));
          assert buf[..total + count] == filled + buf[total..total + count];
          total := total + count;
        case Retry =>
        case IoError => return Broken;
      }
    }
    assert buf[..] == buf[..total];
    return Complete;
  }

  // ----- one frame

  datatype FrameRead = FrameEof | FrameFailed | FrameOversized | Frame(body: seq<byte>)

  /** What a frame read comes to, judged from the arriving bytes alone. */
  function FrameOf(arriving: seq<byte>, breaks: bool): FrameRead {
    if |arriving| < 4 then if arriving == [] && !breaks then FrameEof else FrameFailed
    else match DecodeFrameLen(arriving[..4])
      case Err(_) => FrameOversized
      case Ok(len) => if |arriving| < 4 + len then FrameFailed else Frame(arriving[4..4 + len])
  }

  /** How many bytes a frame read has taken when it answers with a frame or refuses a header. */
  function Consumed(frame: FrameRead): nat {
    match frame
    case Frame(body) => 4 + |body|
    case FrameOversized => 4
    case _ => 0
  }

  method ReadFrame(stream: Stream) returns (frame: FrameRead)
    requires Proper(stream.pieces)
    modifies stream
    ensures Proper(stream.pieces)
    ensures frame == FrameOf(old(Arriving(stream.pieces)), old(Breaks(stream.pieces)))
    ensures frame.FrameEof? <==> old(Arriving(stream.pieces)) == [] && !old(Breaks(stream.pieces))
    ensures frame.FrameOversized? <==>
      old(|Arriving(stream.pieces)|) >= 4 && FromBigEndian(old(Arriving(stream.pieces))[..4]) > 65536
    ensures frame.Frame? || frame.FrameOversized? ==>
      && Consumed(frame) <= old(|Arriving(stream.pieces)|)
      && Arriving(stream.pieces) == old(Arriving(stream.pieces))[Consumed(frame)..]
  {
    ghost var arriving := Arriving(stream.pieces);
    var header := new byte[4];
    var outcome := ReadFull(stream, header);
    match outcome {
      case Eof => return FrameEof;
      case Partial => return FrameFailed;
      case Broken => return FrameFailed;
      case Complete =>
    }
    var len := DecodeFrameLen(header[..]);
    match len {
      case Err(_) => return FrameOversized;
      case Ok(n) =>
        var body := new byte[n];
        outcome := ReadFull(stream, body);
        if outcome.Complete? {
          assert arriving[4..][..n] == arriving[4..4 + n];
          assert arriving[4..][n..] == arriving[4 + n..];
          return Frame(body[..]);
        }
        return FrameFailed;
    }
  }

  /** Reading back what was framed, followed by anything, whether or not the stream
      breaks later, gives exactly the payload. */
  lemma EncodedFrameReadsBack(payload: seq<byte>, rest: seq<byte>, breaks: bool)
    requires |payload| <= 65536
    ensures EncodeFrame(payload).Ok?
    ensures FrameOf(EncodeFrame(payload).value + rest, breaks) == Frame(payload)
    ensures (EncodeFrame(payload).value + rest)[Consumed(Frame(payload))..] == rest
  {
    var header := ToBigEndian(|payload|);
    var wire := EncodeFrame(payload).value + rest;
    BigEndianRoundTrip(|payload|);
    assert wire[..4] == header;
    assert wire[4..4 + |payload|] == payload;
  }

  /** A frame is read as one only if it is the encoding of what is returned. */
  lemma FramesAreEncodings(arriving: seq<byte>, breaks: bool)
    requires FrameOf(arriving, breaks).Frame?
    ensures var body := FrameOf(arriving, breaks).body;
      EncodeFrame(body).Ok? && EncodeFrame(body).value <= arriving
  {
    var len := FromBigEndian(arriving[..4]);
    BigEndianInjective(arriving[..4]);
    assert arriving[..4 + len] == arriving[..4] + arriving[4..4 + len];
  }

  lemma BigEndianInjective(bytes: seq<byte>)
    requires |bytes| == 4
    ensures ToBigEndian(FromBigEndian(bytes)) == bytes
  {
    var n := FromBigEndian(bytes);
    assert n / 0x100_0000 == bytes[0] as int;
    assert n / 0x1_0000 == bytes[0] as int * 256 + bytes[1] as int;
    assert n / 256 == bytes[0] as int * 0x1_0000 + bytes[1] as int * 256 + bytes[2] as int;
  }

  /** End-to-end over any cutting of the bytes into pieces, with interruptions anywhere. */
  method RoundTrip(payload: seq<byte>, rest: seq<byte>, pieces: seq<Piece>) returns (frame: FrameRead, stream: Stream)
    requires Proper(pieces) && |payload| <= 65536
    requires Arriving(pieces) == EncodeFrame(payload).value + rest
    ensures frame == Frame(payload)
    ensures Arriving(stream.pieces) == rest
  {
    EncodedFrameReadsBack(payload, rest, Breaks(pieces));
    stream := new Stream(pieces);
    frame := ReadFrame(stream);
  }
}
