/**
 * The pkt-line framing of Git's smart transport: the packet kinds, their
 * encoders, the split function that cuts a byte stream into frames, and the
 * `PacketScanner` that classifies each frame.
 *
 * A frame is a four-digit hexadecimal length (header included) followed by
 * the payload. "0000" is a flush, "0001" a delimiter, and the literal "PACK"
 * switches the stream to raw pack-file bytes for the rest of the input.
 */
module PktLine {
  import opened Wrappers
  import opened Strings

  /** The largest payload a data frame can carry: the whole frame must fit the four-digit header. */
  const MaxContentLength: nat := 0xFFFF - 4

  datatype Packet =
    | Flush
    | Delim
    | Bytes(content: seq<byte>)
    | ErrorPacket(message: seq<byte>)
    | PackFileIndicator
    | PackFile(chunk: seq<byte>)

  /** Why a `SyntaxError` was raised; the messages themselves are not modelled. */
  datatype SyntaxReason =
    | EarlyEOF
    | UnknownSpecialPacket(token: seq<byte>)
    | UnexpectedPacket
    | CannotSplit

  datatype Error =
    | SyntaxError(reason: SyntaxReason)
      /** The peer's "ERR " packet, which Go reports as an `ErrorPacket` error. */
    | RemoteError(message: seq<byte>)
      /** The length header is not four hexadecimal digits (`strconv.ParseUint` fails). */
    | InvalidLength(header: seq<byte>)
      /** A frame whose length (2 or 3) is shorter than its own header: Go slices past its end and panics. */
    | TruncatedFrame(token: seq<byte>)

  /** One step of a scanner as a parser sees it: a packet, or the end of the scan with its error. */
  datatype ScanOutcome = Scanned(packet: Packet) | Stopped(err: Option<Error>)

  /**
   * One step of a parser state machine: report a chunk and move to `next`,
   * move to `next` reporting nothing new (Scan still returns true), or stop
   * with `err` as the parser's error, leaving its state as it was.
   */
  datatype Transition<S, C> = Emit(next: S, chunk: C) | Skip(next: S) | Halt(err: Option<Error>)

  /** The fields a parser keeps beside its scanner: its state, its first error and its latest chunk. */
  datatype ParserState<S, C> = ParserState(state: S, err: Option<Error>, curr: Option<C>)

  /** The fields after transition `t`, and what `Scan` returns. */
  function Apply<S, C>(f: ParserState<S, C>, t: Transition<S, C>): (r: (ParserState<S, C>, bool))
    ensures r.1 == !t.Halt?
    ensures t.Halt? ==> r.0 == f.(err := t.err)
    ensures t.Skip? ==> r.0 == f.(state := t.next)
    ensures t.Emit? ==> r.0 == f.(state := t.next, curr := Some(t.chunk))
  {
    match t
    case Emit(n, c) => (f.(state := n, curr := Some(c)), true)
    case Skip(n) => (f.(state := n), true)
    case Halt(e) => (f.(err := e), false)
  }

  /** The chunks a transition reports: one for `Emit`, none otherwise. */
  function Emitted<S, C>(t: Transition<S, C>): (r: seq<C>)
    ensures |r| <= 1 && (r != [] <==> t.Emit?)
  {
    if t.Emit? then [t.chunk] else []
  }

  /** What a parser reads from a scanner whose packet stream is `ps` ending with `e`: one outcome per packet, then the stop. */
  function Outcomes(ps: seq<Packet>, e: Option<Error>): (r: seq<ScanOutcome>)
    ensures |r| == |ps| + 1 && r[|ps|] == Stopped(e)
    ensures forall i | 0 <= i < |ps| :: r[i] == Scanned(ps[i])
  {
    if |ps| == 0 then [Stopped(e)] else [Scanned(ps[0])] + Outcomes(ps[1..], e)
  }

  // ---------------------------------------------------------------------------
  // Hexadecimal headers

  /** The value of one hexadecimal digit, in either case (as `strconv.ParseUint` accepts). */
  function HexValue(b: byte): (r: Option<nat>)
    ensures r.Some? ==> r.value < 16
  {
    if '0' <= b <= '9' then Some(b as int - '0' as int)
    else if 'a' <= b <= 'f' then Some(b as int - 'a' as int + 10)
    else if 'A' <= b <= 'F' then Some(b as int - 'A' as int + 10)
    else None
  }

  /** True when `b` is a hexadecimal digit of the given case. */
  predicate IsHexDigit(b: byte, upper: bool) {
    ('0' <= b <= '9') || (upper && 'A' <= b <= 'F') || (!upper && 'a' <= b <= 'f')
  }

  /** The digit for `d` in the given case. */
  function HexDigit(d: nat, upper: bool): (b: byte)
    requires d < 16
    ensures IsHexDigit(b, upper) && HexValue(b) == Some(d)
  {
    if d < 10 then (('0' as int) + d) as char
    else if upper then (('A' as int) + d - 10) as char
    else (('a' as int) + d - 10) as char
  }

  /** `strconv.ParseUint(h, 16, 32)` on a four-byte header. */
  function ParseHex4(h: seq<byte>): (r: Option<nat>)
    requires |h| == 4
    ensures r.Some? ==> r.value < 0x10000
    ensures r.Some? <==> forall i | 0 <= i < 4 :: HexValue(h[i]).Some?
  {
    match (HexValue(h[0]), HexValue(h[1]), HexValue(h[2]), HexValue(h[3]))
    case (Some(a), Some(b), Some(c), Some(d)) => Some(((a * 16 + b) * 16 + c) * 16 + d)
    case _ => None
  }

  /** Four hexadecimal digits of `n`, most significant first. */
  function Hex4(n: nat, upper: bool): (r: seq<byte>)
    requires n < 0x10000
    ensures |r| == 4 && ParseHex4(r) == Some(n)
    ensures forall i | 0 <= i < 4 :: IsHexDigit(r[i], upper)
  {
    assert n == ((n / 0x1000 * 16 + n / 0x100 % 16) * 16 + n / 0x10 % 16) * 16 + n % 16 by {
      assert n / 0x100 == n / 0x1000 * 16 + n / 0x100 % 16;
      assert n / 0x10 == n / 0x100 * 16 + n / 0x10 % 16;
    }
    [HexDigit(n / 0x1000, upper), HexDigit(n / 0x100 % 16, upper),
     HexDigit(n / 0x10 % 16, upper), HexDigit(n % 16, upper)]
  }

  /**
   * Go's `%04x` (lower case) and `%04X` (upper case): the hexadecimal digits
   * of `n`, at least four of them. Below 0x10000 they are the four digits a
   * header is read back from; above it a fifth digit appears and the first
   * four only read back as `n / 16`.
   */
  function FormatHex(n: nat, upper: bool): (r: seq<byte>)
    ensures |r| >= 4
    ensures n < 0x10000 ==> |r| == 4 && ParseHex4(r) == Some(n)
    ensures 0x10000 <= n < 0x100000 ==> |r| == 5 && ParseHex4(r[..4]) == Some(n / 16)
    ensures forall i | 0 <= i < |r| :: IsHexDigit(r[i], upper)
    decreases n
  {
    if n < 0x10000 then Hex4(n, upper)
    else FormatHex(n / 16, upper) + [HexDigit(n % 16, upper)]
  }

  // ---------------------------------------------------------------------------
  // Encoders

  /**
   * `ErrorPacket.EncodeToPktLine` as written: the header is `%04X` of the
   * length of "ERR " + message plus four, and the encoder aborts only when
   * "ERR " + message is longer than 0xFFFF bytes.
   */
  function EncodeErrorAsWritten(message: seq<byte>): (r: seq<byte>)
    requires 4 + |message| <= 0xFFFF
    ensures |r| >= |message| + 8 && r[|r| - |message| - 4..] == "ERR " + message
    ensures 4 + |message| <= MaxContentLength ==>
      |r| == |message| + 8 && r[4..] == "ERR " + message && ParseHex4(r[..4]) == Some(|r|)
      && forall i | 0 <= i < 4 :: IsHexDigit(r[i], true)
  {
    var h := FormatHex(|message| + 8, true);
    var body := "ERR " + message;
    assert (h + body)[|h|..] == body;
    assert (h + body)[..4] == h[..4];
    h + body
  }

  /** A data frame: `%04x` of the content length plus four, then the content. */
  function EncodeData(content: seq<byte>): (r: seq<byte>)
    requires |content| <= MaxContentLength
    ensures |r| == |content| + 4 && r[4..] == content && ParseHex4(r[..4]) == Some(|r|)
    ensures forall i | 0 <= i < 4 :: IsHexDigit(r[i], false)
  {
    var h := FormatHex(|content| + 4, false);
    assert (h + content)[..4] == h;
    h + content
  }

  /**
   * The inputs on which the encoders do not abort. The bound on an error
   * message is the corrected one: "ERR " + message obeys the same limit as
   * any other payload.
   */
  predicate Encodable(p: Packet) {
    match p
    case Bytes(c) => |c| <= MaxContentLength
    case ErrorPacket(m) => 4 + |m| <= MaxContentLength
    case _ => true
  }

  /** The `EncodeToPktLine` method of every packet kind. */
  function EncodeToPktLine(p: Packet): (r: seq<byte>)
    requires Encodable(p)
    ensures p.Bytes? ==>
      |r| == |p.content| + 4 && r[4..] == p.content && ParseHex4(r[..4]) == Some(|r|)
      && forall i | 0 <= i < 4 :: IsHexDigit(r[i], false)
    ensures p.ErrorPacket? ==>
      |r| == |p.message| + 8 && r[4..] == "ERR " + p.message && ParseHex4(r[..4]) == Some(|r|)
      && forall i | 0 <= i < 4 :: IsHexDigit(r[i], true)
    ensures p.PackFile? ==> r == p.chunk
    ensures !p.PackFile? ==> |r| >= 4
  {
    match p
    case Flush => "0000"
    case Delim => "0001"
    case Bytes(c) => EncodeData(c)
    case ErrorPacket(m) => EncodeErrorAsWritten(m)
    case PackFileIndicator => "PACK"
    case PackFile(c) => c
  }

  /** The encodings of `ps`, one after the other. */
  function EncodeAll(ps: seq<Packet>): seq<byte>
    requires forall p | p in ps :: Encodable(p)
  {
    if |ps| == 0 then [] else EncodeToPktLine(ps[0]) + EncodeAll(ps[1..])
  }

  // ---------------------------------------------------------------------------
  // Splitting and classifying

  /** The answer of the split function: wait for more input, cut a token of `size` bytes, or fail. */
  datatype SplitResult = NeedMore | Token(size: nat) | SplitError(err: Error)

  /**
   * `packetSplitFunc`: in pack-file mode everything buffered is one token;
   * otherwise "PACK" and the special headers 0 and 1 are four-byte tokens and
   * any other header asks for exactly that many bytes.
   */
  function Split(data: seq<byte>, packFileMode: bool): (r: SplitResult)
    ensures r.Token? ==> r.size <= |data|
    ensures packFileMode ==> r == Token(|data|)
    ensures !packFileMode && r.Token? ==> 2 <= r.size
    ensures !packFileMode && |data| < 4 ==> r == NeedMore
    ensures !packFileMode && |data| >= 4 && HasPrefix(data, "PACK") ==> r == Token(4)
    ensures !packFileMode && |data| >= 4 && !HasPrefix(data, "PACK") ==>
      (r.SplitError? <==> ParseHex4(data[..4]).None?) && (r.SplitError? ==> r.err == InvalidLength(data[..4]))
    ensures !packFileMode && |data| >= 4 && !HasPrefix(data, "PACK") && ParseHex4(data[..4]).Some? ==>
      var sz := ParseHex4(data[..4]).value;
      (sz <= 1 ==> r == Token(4)) && (sz >= 2 && |data| < sz ==> r == NeedMore) && (sz >= 2 && |data| >= sz ==> r == Token(sz))
  {
    if packFileMode then Token(|data|)
    else if |data| < 4 then NeedMore
    else if HasPrefix(data, "PACK") then Token(4)
    else
      match ParseHex4(data[..4])
      case None => SplitError(InvalidLength(data[..4]))
      case Some(sz) =>
        if sz == 0 || sz == 1 then Token(4)
        else if |data| < sz then NeedMore
        else Token(sz)
  }

  /** What `Scan` makes of one token. */
  datatype Classified = Recognised(packet: Packet) | EndOfInput | Rejected(err: Error)

  /**
   * The classification `PacketScanner.Scan` applies to a token. The "ERR "
   * test is made only on tokens of at least eight bytes; Go compares bytes
   * past the end of shorter tokens.
   */
  function Classify(bs: seq<byte>, packFileMode: bool): (r: Classified)
    ensures r.Recognised? && packFileMode ==> r.packet == PackFile(bs) && |bs| > 0
    ensures r.Recognised? && r.packet.Bytes? ==> !packFileMode && |bs| > 4 && bs[4..] == r.packet.content
    ensures r.EndOfInput? ==> packFileMode && bs == []
    ensures packFileMode ==> !r.Rejected? && (r.EndOfInput? <==> bs == [])
  {
    if packFileMode then
      if |bs| == 0 then EndOfInput else Recognised(PackFile(bs))
    else if bs == "0000" then Recognised(Flush)
    else if bs == "0001" then Recognised(Delim)
    else if bs == "PACK" then Recognised(PackFileIndicator)
    else if |bs| == 4 then Rejected(SyntaxError(UnknownSpecialPacket(bs)))
    else if |bs| < 4 then Rejected(TruncatedFrame(bs))
    else if |bs| >= 8 && bs[4..8] == "ERR " then Rejected(RemoteError(bs[8..]))
    else Recognised(Bytes(bs[4..]))
  }

  /** The next packet at the front of `rest`, with the number of bytes it takes. */
  datatype Next = Got(packet: Packet, used: nat) | Ended | Failed(err: Error, used: nat)

  /** Split then classify: what the scanner makes of the unread input `rest`. */
  function NextPacket(rest: seq<byte>, packFileMode: bool): (r: Next)
    ensures r.Got? ==> 0 < r.used <= |rest|
    ensures r.Failed? ==> r.used <= |rest|
  {
    match Split(rest, packFileMode)
    case NeedMore => Ended
    case SplitError(e) => Failed(e, 0)
    case Token(n) =>
      match Classify(rest[..n], packFileMode)
      case Recognised(p) => Got(p, n)
      case EndOfInput => Ended
      case Rejected(e) => Failed(e, n)
  }

  /** Every packet the scanner reports on `rest`, in order, and the error it stops with. */
  function Packets(rest: seq<byte>, packFileMode: bool): (seq<Packet>, Option<Error>)
    decreases |rest|
  {
    match NextPacket(rest, packFileMode)
    case Got(p, n) =>
      var tail := Packets(rest[n..], packFileMode || p == PackFileIndicator);
      ([p] + tail.0, tail.1)
    case Ended => ([], None)
    case Failed(e, _) => ([], Some(e))
  }

  // ---------------------------------------------------------------------------
  // The scanner

  /** The fields of a `PacketScanner`, with the cursor that stands for its reader. */
  datatype ScannerState = ScannerState(pos: nat, err: Option<Error>, curr: Option<Packet>, packFileMode: bool)

  /** What the next `Scan` from state `s` reports. */
  function Pending(input: seq<byte>, s: ScannerState): ScanOutcome
    requires s.pos <= |input|
  {
    if s.err.Some? then Stopped(s.err)
    else
      match NextPacket(input[s.pos..], s.packFileMode)
      case Got(p, _) => Scanned(p)
      case Ended => Stopped(None)
      case Failed(e, _) => Stopped(Some(e))
  }

  /** The state `Scan` leaves behind. */
  function Advance(input: seq<byte>, s: ScannerState): (t: ScannerState)
    requires s.pos <= |input|
    ensures t.pos <= |input|
    ensures s.err.Some? ==> t == s
    ensures s.packFileMode ==> t.packFileMode
    ensures Pending(input, s).Scanned? ==>
      t.err == None && t.curr == Some(Pending(input, s).packet)
      && t.packFileMode == (s.packFileMode || Pending(input, s).packet == PackFileIndicator)
    ensures Pending(input, s).Stopped? ==>
      t.err == Pending(input, s).err && t.curr == s.curr && t.packFileMode == s.packFileMode
  {
    if s.err.Some? then s
    else
      match NextPacket(input[s.pos..], s.packFileMode)
      case Got(p, n) => ScannerState(s.pos + n, None, Some(p), s.packFileMode || p == PackFileIndicator)
      case Ended => s
      case Failed(e, n) => s.(pos := s.pos + n, err := Some(e))
  }

  /** `PacketScanner`: reads packets from `input`, whose first `pos` bytes are consumed. */
  class PacketScanner {
    const input: seq<byte>
    var pos: nat
    var err: Option<Error>
    var curr: Option<Packet>
    var packFileMode: bool

    ghost predicate Valid()
      reads this
    {
      pos <= |input|
    }

    ghost function State(): ScannerState
      reads this
    {
      ScannerState(pos, err, curr, packFileMode)
    }

    /** What the next call of `Scan` will report. */
    ghost function Upcoming(): ScanOutcome
      reads this
      requires Valid()
    {
      Pending(input, State())
    }

    /** `NewPacketScanner`. */
    constructor (input: seq<byte>)
      ensures Valid() && this.input == input
      ensures State() == ScannerState(0, None, None, false)
    {
      this.input := input;
      pos := 0;
      err := None;
      curr := None;
      packFileMode := false;
    }

    /** `Err`: the first error other than the end of the input. */
    function Err(): Option<Error>
      reads this
    {
      err
    }

    /** `Packet`: the packet of the last successful `Scan`. */
    function Current(): Option<Packet>
      reads this
    {
      curr
    }

    /** `Scan`: advance to the next packet; false once the input ends or an error is set. */
    method Scan() returns (ok: bool)
      requires Valid()
      modifies this
      ensures Valid()
      ensures ok == old(Upcoming()).Scanned?
      ensures State() == Advance(input, old(State()))
    {
      if err.Some? {
        return false;
      }
      var data := input[pos..];
      match Split(data, packFileMode)
      case NeedMore =>
        return false;
      case SplitError(e) =>
        err := Some(e);
        return false;
      case Token(n) =>
        var bs := data[..n];
        pos := pos + n;
        if packFileMode {
          if |bs| == 0 {
            return false;
          }
          curr := Some(PackFile(bs));
          return true;
        }
        if bs == "0000" {
          curr := Some(Flush);
          return true;
        }
        if bs == "0001" {
          curr := Some(Delim);
          return true;
        }
        if bs == "PACK" {
          packFileMode := true;
          curr := Some(PackFileIndicator);
          return true;
        }
        if |bs| == 4 {
          err := Some(SyntaxError(UnknownSpecialPacket(bs)));
          return false;
        }
        if |bs| < 4 {
          err := Some(TruncatedFrame(bs));
          return false;
        }
        if |bs| >= 8 && bs[4..8] == "ERR " {
          err := Some(RemoteError(bs[8..]));
          return false;
        }
        curr := Some(Bytes(bs[4..]));
        return true;
    }
  }

  // ---------------------------------------------------------------------------
  // Properties of the framing

  /** A packet the framed scanner reads back as itself: a flush, a delimiter, or data a remote error cannot be mistaken for. */
  predicate Framed(p: Packet) {
    Encodable(p) && (p.Flush? || p.Delim? || (p.Bytes? && 1 <= |p.content| && !HasPrefix(p.content, "ERR ")))
  }

  /** A framed packet is read back as itself, consuming exactly its encoding. */
  lemma ScanEncodedFramed(p: Packet, rest: seq<byte>)
    requires Framed(p)
    ensures NextPacket(EncodeToPktLine(p) + rest, false) == Got(p, |EncodeToPktLine(p)|)
  {
    match p
    case Bytes(c) => ScanEncodedBytes(c, rest);
    case Flush => ScanEncodedSpecial(Flush, rest);
    case Delim => ScanEncodedSpecial(Delim, rest);
  }

  /** An encoded header is hexadecimal, so a frame never starts with "PACK". */
  lemma HeaderIsNotPack(e: seq<byte>, rest: seq<byte>)
    requires |e| >= 4 && ParseHex4(e[..4]).Some?
    ensures !HasPrefix(e + rest, "PACK") && (e + rest)[..4] == e[..4]
  {
    assert (e + rest)[..4] == e[..4];
    assert HexValue(e[..4][0]).Some?;
  }

  /** A data frame is read back as the same content and consumes exactly the frame. */
  lemma ScanEncodedBytes(c: seq<byte>, rest: seq<byte>)
    requires 1 <= |c| <= MaxContentLength && !HasPrefix(c, "ERR ")
    ensures NextPacket(EncodeToPktLine(Bytes(c)) + rest, false) == Got(Bytes(c), |c| + 4)
  {
    var e := EncodeToPktLine(Bytes(c));
    var data := e + rest;
    HeaderIsNotPack(e, rest);
    assert Split(data, false) == Token(|e|);
    assert data[..|e|] == e;
    if |e| >= 8 {
      assert e[4..8] == c[..4];
    }
  }

  /** An error frame is read back as the remote error carrying the same message. */
  lemma ScanEncodedError(m: seq<byte>, rest: seq<byte>)
    requires 4 + |m| <= MaxContentLength
    ensures NextPacket(EncodeToPktLine(ErrorPacket(m)) + rest, false) == Failed(RemoteError(m), |m| + 8)
  {
    var e := EncodeToPktLine(ErrorPacket(m));
    var data := e + rest;
    HeaderIsNotPack(e, rest);
    assert Split(data, false) == Token(|e|);
    assert data[..|e|] == e;
    assert e[4..8] == "ERR " && e[8..] == m;
  }

  /** "0000", "0001" and "PACK" are four-byte tokens read back as the same special packet. */
  lemma ScanEncodedSpecial(p: Packet, rest: seq<byte>)
    requires p == Flush || p == Delim || p == PackFileIndicator
    ensures NextPacket(EncodeToPktLine(p) + rest, false) == Got(p, 4)
  {
    var e := EncodeToPktLine(p);
    assert (e + rest)[..4] == e;
  }

  /** In pack-file mode a non-empty chunk is read back whole and unframed; empty input ends the scan. */
  lemma ScanEncodedPackFile(c: seq<byte>)
    ensures EncodeToPktLine(PackFile(c)) == c
    ensures NextPacket(c, true) == if c == [] then Ended else Got(PackFile(c), |c|)
  {
    assert c[..|c|] == c;
  }

  /** A four-byte header that is neither "PACK" nor hexadecimal is a framing error, whatever follows it. */
  lemma NonHexHeaderFails(h: seq<byte>, rest: seq<byte>)
    requires |h| == 4 && h != "PACK" && ParseHex4(h).None?
    ensures NextPacket(h + rest, false) == Failed(InvalidLength(h), 0)
  {
    assert (h + rest)[..4] == h;
  }

  /**
   * In framed mode the input runs out with no error when fewer than four
   * bytes are left, or when a header asks for more bytes than remain.
   */
  lemma MidFrameEnds(d: seq<byte>)
    requires |d| < 4 || (!HasPrefix(d, "PACK") && ParseHex4(d[..4]).Some?
                         && 2 <= ParseHex4(d[..4]).value && |d| < ParseHex4(d[..4]).value)
    ensures NextPacket(d, false) == Ended
  {
  }

  /** Empty content encodes to "0004", which the scanner rejects as an unknown special packet. */
  lemma EmptyContentIsRejected(rest: seq<byte>)
    ensures NextPacket(EncodeToPktLine(Bytes([])) + rest, false)
            == Failed(SyntaxError(UnknownSpecialPacket(EncodeToPktLine(Bytes([])))), 4)
  {
    var e := EncodeToPktLine(Bytes([]));
    HeaderIsNotPack(e, rest);
    assert (e + rest)[..4] == e;
    assert e != "0000" && e != "0001" by {
      assert ParseHex4("0000") == Some(0) && ParseHex4("0001") == Some(1);
    }
  }

  /**
   * In framed mode the answer for a buffer that already decides (a token or
   * an error) does not change when more bytes arrive; this is why the model
   * may look at the whole input where Go's scanner sees a partial buffer.
   */
  lemma NextPacketStable(d: seq<byte>, e: seq<byte>)
    requires NextPacket(d, false) != Ended && HasPrefix(e, d)
    ensures NextPacket(e, false) == NextPacket(d, false)
  {
    assert |d| >= 4;
    assert e[..4] == d[..4];
    assert HasPrefix(e, "PACK") == HasPrefix(d, "PACK") by {
      assert e[..4] == d[..4];
    }
    match Split(d, false)
    case Token(n) =>
      assert e[..n] == d[..n];
    case SplitError(_) =>
  }

  /** The packet stream of input that starts with packet `p` of `n` bytes. */
  lemma PacketsAfterFirst(d: seq<byte>, mode: bool, p: Packet, n: nat)
    requires NextPacket(d, mode) == Got(p, n)
    ensures n <= |d|
    ensures Packets(d, mode) == ([p] + Packets(d[n..], mode || p == PackFileIndicator).0,
                                 Packets(d[n..], mode || p == PackFileIndicator).1)
  {
  }

  /** One framed packet in front of an encoded stream adds itself in front of the packets read. */
  lemma PacketsOfFramedFirst(p: Packet, d: seq<byte>)
    requires Framed(p)
    ensures Packets(EncodeToPktLine(p) + d, false) == ([p] + Packets(d, false).0, Packets(d, false).1)
  {
    var e := EncodeToPktLine(p);
    ScanEncodedFramed(p, d);
    PacketsAfterFirst(e + d, false, p, |e|);
    assert (e + d)[|e|..] == d;
  }

  /** The encodings of a non-empty sequence start with the encoding of its head. */
  lemma EncodeAllCons(ps: seq<Packet>, rest: seq<byte>)
    requires |ps| > 0 && forall p | p in ps :: Encodable(p)
    ensures ps[0] in ps && EncodeAll(ps) + rest == EncodeToPktLine(ps[0]) + (EncodeAll(ps[1..]) + rest)
  {
    assert ps[0] in ps;
    ConcatAssoc(EncodeToPktLine(ps[0]), EncodeAll(ps[1..]), rest);
  }

  lemma HeadAppend(ps: seq<Packet>, more: seq<Packet>)
    requires |ps| > 0
    ensures [ps[0]] + (ps[1..] + more) == ps + more
  {
  }

  /** The induction step of `PacketsOfEncoding`: a framed head is read first, then the rest as before. */
  lemma PacketsOfEncodingStep(ps: seq<Packet>, rest: seq<byte>)
    requires |ps| > 0
    requires forall p | p in ps :: Encodable(p)
    requires Framed(ps[0])
    requires Packets(EncodeAll(ps[1..]) + rest, false)
             == (ps[1..] + Packets(rest, false).0, Packets(rest, false).1)
    ensures Packets(EncodeAll(ps) + rest, false) == (ps + Packets(rest, false).0, Packets(rest, false).1)
  {
    var tail := EncodeAll(ps[1..]) + rest;
    var r := Packets(rest, false);
    EncodeAllCons(ps, rest);
    PacketsOfFramedFirst(ps[0], tail);
    HeadAppend(ps, r.0);
  }

  /** A sequence of framed packets, followed by anything, is read back packet by packet. */
  lemma {:induction false} PacketsOfEncoding(ps: seq<Packet>, rest: seq<byte>)
    requires forall p | p in ps :: Encodable(p)
    requires forall p | p in ps :: Framed(p)
    ensures Packets(EncodeAll(ps) + rest, false) == (ps + Packets(rest, false).0, Packets(rest, false).1)
  {
    if |ps| > 0 {
      assert ps[0] in ps;
      PacketsOfEncoding(ps[1..], rest);
      PacketsOfEncodingStep(ps, rest);
    } else {
      assert EncodeAll(ps) + rest == rest;
      assert ps + Packets(rest, false).0 == Packets(rest, false).0;
    }
  }

  /** A remote error frame ends the packet stream with that error, whatever follows it. */
  lemma PacketsOfRemoteError(m: seq<byte>, rest: seq<byte>)
    requires 4 + |m| <= MaxContentLength
    ensures Packets(EncodeToPktLine(ErrorPacket(m)) + rest, false) == ([], Some(RemoteError(m)))
  {
    ScanEncodedError(m, rest);
  }

  /** After "PACK" the rest of the input is one raw pack-file chunk, and the stream then ends cleanly. */
  lemma PacketsOfPackFile(raw: seq<byte>)
    ensures Packets(EncodeToPktLine(PackFileIndicator) + raw, false)
            == ([PackFileIndicator] + (if raw == [] then [] else [PackFile(raw)]), None)
  {
    ScanEncodedSpecial(PackFileIndicator, raw);
    assert (EncodeToPktLine(PackFileIndicator) + raw)[4..] == raw;
    ScanEncodedPackFile(raw);
    ScanEncodedPackFile([]);
    if raw != [] {
      assert raw[|raw|..] == [];
      assert Packets([], true) == ([], None);
      assert Packets(raw[|raw|..], true) == ([], None);
      assert [PackFile(raw)] + [] == [PackFile(raw)];
      assert Packets(raw, true) == ([PackFile(raw)], None);
    }
  }

  /**
   * The scanner reports exactly the packet stream of its unread input: while
   * packets remain, `Scan` reports the first and leaves the rest unread; once
   * none remain it stops with the stream's error and stays stopped.
   */
  lemma ScannerFollowsPackets(input: seq<byte>, s: ScannerState)
    requires s.pos <= |input| && s.err.None?
    ensures var r := Packets(input[s.pos..], s.packFileMode);
            var t := Advance(input, s);
            r.0 == [] ==>
              Pending(input, s) == Stopped(r.1) && Pending(input, t) == Stopped(r.1) && Advance(input, t) == t
    ensures var r := Packets(input[s.pos..], s.packFileMode);
            var t := Advance(input, s);
            r.0 != [] ==>
              Pending(input, s) == Scanned(r.0[0]) && t.err.None?
              && Packets(input[t.pos..], t.packFileMode) == (r.0[1..], r.1)
  {
    var nx := NextPacket(input[s.pos..], s.packFileMode);
    if nx.Got? {
      ScannerReadsPacket(input, s, nx.packet, nx.used);
    } else if nx.Ended? {
      ScannerEnds(input, s);
    } else {
      ScannerStops(input, s, nx.err, nx.used);
    }
  }

  /** When no packet remains the scanner reports a clean end and does not move. */
  lemma ScannerEnds(input: seq<byte>, s: ScannerState)
    requires s.pos <= |input| && s.err.None?
    requires NextPacket(input[s.pos..], s.packFileMode) == Ended
    ensures Packets(input[s.pos..], s.packFileMode) == ([], None)
    ensures Pending(input, s) == Stopped(None) && Advance(input, s) == s
  {
  }

  /** A scanner whose unread input stops mid-frame reports a clean end and stays where it is. */
  lemma ScannerEndsMidFrame(input: seq<byte>, s: ScannerState)
    requires s.pos <= |input| && s.err.None? && !s.packFileMode
    requires var d := input[s.pos..];
             |d| < 4 || (!HasPrefix(d, "PACK") && ParseHex4(d[..4]).Some?
                         && 2 <= ParseHex4(d[..4]).value && |d| < ParseHex4(d[..4]).value)
    ensures Packets(input[s.pos..], false) == ([], None)
    ensures Pending(input, s) == Stopped(None) && Advance(input, s) == s
  {
    MidFrameEnds(input[s.pos..]);
    ScannerEnds(input, s);
  }

  /** A packet at the front of the unread input is reported, consumed and removed from the stream. */
  lemma ScannerReadsPacket(input: seq<byte>, s: ScannerState, p: Packet, n: nat)
    requires s.pos <= |input| && s.err.None?
    requires NextPacket(input[s.pos..], s.packFileMode) == Got(p, n)
    ensures var r := Packets(input[s.pos..], s.packFileMode);
            var t := Advance(input, s);
            Pending(input, s) == Scanned(p) && t.err.None? && r.0 != [] && r.0[0] == p
            && Packets(input[t.pos..], t.packFileMode) == (r.0[1..], r.1)
  {
    var t := Advance(input, s);
    var mode := s.packFileMode || p == PackFileIndicator;
    assert t == ScannerState(s.pos + n, None, Some(p), mode);
    var d := input[s.pos..];
    var rest := input[t.pos..];
    assert rest == d[n..];
    var tail := Packets(rest, mode);
    PacketsAfterFirst(d, s.packFileMode, p, n);
    assert Packets(d, s.packFileMode) == ([p] + tail.0, tail.1);
    assert ([p] + tail.0)[1..] == tail.0;
  }

  /** A framing or classification error stops the scanner, which then stays where it is. */
  lemma ScannerStops(input: seq<byte>, s: ScannerState, e: Error, n: nat)
    requires s.pos <= |input| && s.err.None?
    requires NextPacket(input[s.pos..], s.packFileMode) == Failed(e, n)
    ensures var t := Advance(input, s);
            Packets(input[s.pos..], s.packFileMode) == ([], Some(e))
            && Pending(input, s) == Stopped(Some(e)) && t.err == Some(e)
            && Pending(input, t) == Stopped(Some(e)) && Advance(input, t) == t
  {
  }

  /**
   * The error encoder as written accepts a 0xFFF8-byte message, writes a
   * five-digit header, and the scanner reads the frame back as a 4096-byte
   * data packet instead of the remote error.
   */
  lemma ErrorHeaderOverflow(m: seq<byte>)
    requires |m| == 0xFFF8
    ensures 4 + |m| <= 0xFFFF
    ensures |EncodeErrorAsWritten(m)| == |m| + 9
    ensures NextPacket(EncodeErrorAsWritten(m), false).Got?
    ensures NextPacket(EncodeErrorAsWritten(m), false).used == 0x1000
  {
    var h := FormatHex(|m| + 8, true);
    var e := EncodeErrorAsWritten(m);
    assert e == h + ("ERR " + m);
    assert |h| == 5 && ParseHex4(h[..4]) == Some(0x1000);
    assert e[..4] == h[..4];
    HeaderIsNotPack(h[..4], e[4..]);
    assert e == h[..4] + e[4..];
    assert Split(e, false) == Token(0x1000);
    var bs := e[..0x1000];
    assert bs[7] == 'R';
    assert bs[4..8] != "ERR " by {
      assert bs[4..8][3] == bs[7];
    }
  }
}
