/**
 * The protocol-v1 git-upload-pack response: optional "shallow" and
 * "unshallow" lines closed by a flush, "ACK" lines or a "NAK", the pack data,
 * and a final flush. The sections may be skipped, so `Scan` tries the
 * section the parser is in and falls through to the later ones; its state
 * only moves forward. Each chunk has an encoder that writes it back as one
 * packet.
 */
module UploadResp {
  import opened Wrappers
  import opened Strings
  import opened PktLine

  datatype State =
    | Begin
    | ScanShallows
    | ScanUnshallows
    | BeginAcknowledgements
    | ScanAcknowledgements
    | ScanPacks
    | End

  /** The position of a state in the order the sections come in. */
  function Rank(st: State): nat {
    match st
    case Begin => 0
    case ScanShallows => 1
    case ScanUnshallows => 2
    case BeginAcknowledgements => 3
    case ScanAcknowledgements => 4
    case ScanPacks => 5
    case End => 6
  }

  /** One chunk of the response; the encoder uses the first field that is set. */
  datatype UploadResponseChunk = UploadResponseChunk(
    shallowObjectID: seq<byte>,
    unshallowObjectID: seq<byte>,
    endOfShallows: bool,
    ackObjectID: seq<byte>,
    ackDetail: seq<byte>,
    nak: bool,
    packStream: seq<byte>,
    endOfRequest: bool)

  function ShallowChunk(oid: seq<byte>): UploadResponseChunk {
    UploadResponseChunk(oid, [], false, [], [], false, [], false)
  }

  function UnshallowChunk(oid: seq<byte>): UploadResponseChunk {
    UploadResponseChunk([], oid, false, [], [], false, [], false)
  }

  function AckChunk(oid: seq<byte>, detail: seq<byte>): UploadResponseChunk {
    UploadResponseChunk([], [], false, oid, detail, false, [], false)
  }

  function PackChunk(data: seq<byte>): UploadResponseChunk {
    UploadResponseChunk([], [], false, [], [], false, data, false)
  }

  const EndOfShallowsChunk := UploadResponseChunk([], [], true, [], [], false, [], false)
  const NakChunk := UploadResponseChunk([], [], false, [], [], true, [], false)
  const EndOfRequestChunk := UploadResponseChunk([], [], false, [], [], false, [], true)

  const NakLine: seq<byte> := "NAK\n"

  // ---------------------------------------------------------------------------
  // The grammar of a response

  /**
   * Which part of the response a chunk is, by the encoder's field order. A
   * chunk with none of them set is `Blank`: the encoder refuses it, and the
   * parser makes one from a line with an empty object id.
   */
  datatype Kind = Shallow | Unshallow | EndOfShallows | Ack | Nak | PackData | EndOfRequest | Blank

  function KindOf(c: UploadResponseChunk): Kind {
    if c.shallowObjectID != [] then Shallow
    else if c.unshallowObjectID != [] then Unshallow
    else if c.endOfShallows then EndOfShallows
    else if c.ackObjectID != [] then Ack
    else if c.nak then Nak
    else if c.packStream != [] then PackData
    else if c.endOfRequest then EndOfRequest
    else Blank
  }

  /** The section a chunk belongs to, as the rank of the state the parser is in after it. */
  function Section(k: Kind): nat {
    match k
    case Shallow => 1
    case Unshallow => 2
    case EndOfShallows => 3
    case Ack => 4
    case Nak => 5
    case PackData => 5
    case EndOfRequest => 6
    case Blank => 0
  }

  /**
   * The order of a response,
   * `Shallow* Unshallow* EndOfShallows? Ack* Nak? PackData* EndOfRequest`, with
   * every section optional and pack data not allowed first, as an automaton
   * over the parser's states. Every move goes forward, to the chunk's section.
   */
  function GrammarNext(q: State, k: Kind): (r: Option<State>)
    ensures r.Some? ==> Rank(q) <= Rank(r.value) == Section(k) && k != Blank
  {
    match k
    case Shallow => if Rank(q) <= 1 then Some(ScanShallows) else None
    case Unshallow => if Rank(q) <= 2 then Some(ScanUnshallows) else None
    case EndOfShallows => if Rank(q) <= 2 then Some(BeginAcknowledgements) else None
    case Ack => if Rank(q) <= 4 then Some(ScanAcknowledgements) else None
    case Nak => if Rank(q) <= 4 then Some(ScanPacks) else None
    case PackData => if 1 <= Rank(q) <= 5 then Some(ScanPacks) else None
    case EndOfRequest => if 3 <= Rank(q) <= 5 then Some(End) else None
    case Blank => None
  }

  /** Where the grammar automaton is after reading `cs` from `q`, if it accepts them. */
  function Walk(q: State, cs: seq<UploadResponseChunk>): Option<State>
    decreases |cs|
  {
    if |cs| == 0 then Some(q)
    else
      match GrammarNext(q, KindOf(cs[0]))
      case None => None
      case Some(q') => Walk(q', cs[1..])
  }

  /**
   * The chunks come in section order and none is past the state `q`. Blank
   * chunks are left out: they belong to no section.
   */
  predicate InOrder(cs: seq<UploadResponseChunk>, q: State) {
    && (forall i | 0 <= i < |cs| && KindOf(cs[i]) != Blank :: Section(KindOf(cs[i])) <= Rank(q))
    && (forall i, j | 0 <= i < j < |cs| && KindOf(cs[i]) != Blank && KindOf(cs[j]) != Blank ::
          Section(KindOf(cs[i])) <= Section(KindOf(cs[j])))
  }

  // ---------------------------------------------------------------------------
  // The encoder

  /** The chunk has a field the encoder writes (it aborts otherwise) and the line fits in one packet. */
  predicate Encodable(c: UploadResponseChunk) {
    match KindOf(c)
    case Shallow => |c.shallowObjectID| + 9 <= MaxContentLength
    case Unshallow => |c.unshallowObjectID| + 11 <= MaxContentLength
    case Ack => |c.ackObjectID| + |c.ackDetail| + (if c.ackDetail == [] then 5 else 6) <= MaxContentLength
    case PackData => |c.packStream| <= MaxContentLength
    case Blank => false
    case _ => true
  }

  /**
   * `Encodable` is exactly the condition under which the Go encoder does not
   * panic: a field is set, and the line it formats fits in one data packet.
   */
  lemma EncodableExactly(c: UploadResponseChunk)
    ensures KindOf(c) == Shallow ==>
      (Encodable(c) <==> |"shallow " + c.shallowObjectID + "\n"| <= MaxContentLength)
    ensures KindOf(c) == Unshallow ==>
      (Encodable(c) <==> |"unshallow " + c.unshallowObjectID + "\n"| <= MaxContentLength)
    ensures KindOf(c) == Ack && c.ackDetail == [] ==>
      (Encodable(c) <==> |"ACK " + c.ackObjectID + "\n"| <= MaxContentLength)
    ensures KindOf(c) == Ack && c.ackDetail != [] ==>
      (Encodable(c) <==> |"ACK " + c.ackObjectID + " " + c.ackDetail + "\n"| <= MaxContentLength)
    ensures KindOf(c) == PackData ==> (Encodable(c) <==> |c.packStream| <= MaxContentLength)
    ensures KindOf(c) == EndOfShallows || KindOf(c) == Nak || KindOf(c) == EndOfRequest ==> Encodable(c)
    ensures KindOf(c) == Blank ==> !Encodable(c)
  {
  }

  /** The packet `EncodeToPktLine` writes. */
  function ToPacket(c: UploadResponseChunk): (p: Packet)
    requires Encodable(c)
    ensures PktLine.Encodable(p)
  {
    if c.shallowObjectID != [] then Bytes("shallow " + c.shallowObjectID + "\n")
    else if c.unshallowObjectID != [] then Bytes("unshallow " + c.unshallowObjectID + "\n")
    else if c.endOfShallows then Flush
    else if c.ackObjectID != [] then
      if c.ackDetail != [] then Bytes("ACK " + c.ackObjectID + " " + c.ackDetail + "\n")
      else Bytes("ACK " + c.ackObjectID + "\n")
    else if c.nak then Bytes(NakLine)
    else if c.packStream != [] then Bytes(c.packStream)
    else Flush
  }

  /** `UploadResponseChunk.EncodeToPktLine`. */
  function EncodeToPktLine(c: UploadResponseChunk): (r: seq<byte>)
    requires Encodable(c)
    ensures KindOf(c) == Shallow ==> |r| > 4 && r[4..] == "shallow " + c.shallowObjectID + "\n"
    ensures KindOf(c) == Unshallow ==> |r| > 4 && r[4..] == "unshallow " + c.unshallowObjectID + "\n"
    ensures KindOf(c) == Ack ==>
      |r| > 4 && r[4..] == "ACK " + c.ackObjectID + (if c.ackDetail == [] then [] else " " + c.ackDetail) + "\n"
    ensures KindOf(c) == Nak ==> |r| > 4 && r[4..] == NakLine
    ensures KindOf(c) == PackData ==> |r| > 4 && r[4..] == c.packStream
    ensures KindOf(c) == EndOfShallows || KindOf(c) == EndOfRequest ==> r == "0000"
  {
    PktLine.EncodeToPktLine(ToPacket(c))
  }

  // ---------------------------------------------------------------------------
  // The parser

  /**
   * The parser's error when the scanner stops with `e`, as written: the
   * scanner's own error is dropped, and a clean end is "early EOF" except
   * while waiting for the first acknowledgement or reading the pack.
   */
  function StopAsWritten(st: State, e: Option<Error>): (r: Option<Error>)
    ensures r.Some? ==> r == Some(SyntaxError(EarlyEOF))
  {
    if e.None? && st != BeginAcknowledgements && st != ScanPacks then Some(SyntaxError(EarlyEOF))
    else None
  }

  /**
   * The parser's error when the scanner stops with `e`, corrected: the
   * scanner's error is reported as it is, as `Err` promises.
   */
  function Stop(st: State, e: Option<Error>): (r: Option<Error>)
    ensures e.Some? ==> r == e
    ensures r == None <==> e.None? && (st == BeginAcknowledgements || st == ScanPacks)
    ensures e.None? ==> r == StopAsWritten(st, e)
  {
    if e.Some? then e else StopAsWritten(st, e)
  }

  /**
   * The facts every section keeps for a transition `r` made from state `st`
   * on packet `p`: it moves forward, to the section of the chunk it reports;
   * the "PACK" indicator is the only packet that reports nothing; and the
   * only error is an unexpected packet, which past Begin is a delimiter or
   * an error packet.
   */
  predicate Keeps(st: State, p: Packet, r: Transition<State, UploadResponseChunk>) {
    && (r.Emit? || r.Skip? ==> Rank(st) <= Rank(r.next))
    && (r.Emit? && KindOf(r.chunk) != Blank ==> GrammarNext(st, KindOf(r.chunk)) == Some(r.next))
    && (r.Skip? <==> st != Begin && p == PackFileIndicator)
    && (r.Skip? ==> r.next == ScanPacks)
    && (r.Halt? ==> r.err == Some(SyntaxError(UnexpectedPacket)))
    && (r.Halt? && st != Begin ==> p.Delim? || p.ErrorPacket?)
  }

  /** The last section: the final flush, pack data, and the "PACK" indicator, which reports no chunk. */
  function PackSection(p: Packet): (r: Transition<State, UploadResponseChunk>)
    ensures r.Emit? ==> if p == Flush then r == Emit(End, EndOfRequestChunk)
                        else r.next == ScanPacks && KindOf(r.chunk) in {PackData, Blank}
    ensures r.Skip? <==> p == PackFileIndicator
    ensures r.Skip? ==> r.next == ScanPacks
    ensures r.Halt? ==> r.err == Some(SyntaxError(UnexpectedPacket)) && (p.Delim? || p.ErrorPacket?)
  {
    match p
    case Flush => Emit(End, EndOfRequestChunk)
    case Bytes(data) => Emit(ScanPacks, PackChunk(data))
    case PackFile(data) => Emit(ScanPacks, PackChunk(data))
    case PackFileIndicator => Skip(ScanPacks)
    case _ => Halt(Some(SyntaxError(UnexpectedPacket)))
  }

  /** The acknowledgement section, falling through to the pack section except at the very start. */
  function AckSection(st: State, p: Packet): (r: Transition<State, UploadResponseChunk>)
    requires Rank(st) <= 4
    ensures p != Flush || Rank(st) >= 3 ==> Keeps(st, p, r)
  {
    PrefixedLinesSplit(p);
    if p.Bytes? && HasPrefix(p.content, "ACK ") then
      var ss := SplitN(TrimSuffix(p.content, Newline), Space, 3);
      if |ss| < 2 then Halt(Some(SyntaxError(CannotSplit)))
      else Emit(ScanAcknowledgements, AckChunk(ss[1], if |ss| == 3 then ss[2] else []))
    else if p == Bytes(NakLine) then Emit(ScanPacks, NakChunk)
    else if st == Begin then Halt(Some(SyntaxError(UnexpectedPacket)))
    else PackSection(p)
  }

  /** The unshallow section and the flush that ends the shallow sections, falling through to the acknowledgements. */
  function UnshallowSection(st: State, p: Packet): (r: Transition<State, UploadResponseChunk>)
    requires Rank(st) <= 2
    ensures Keeps(st, p, r)
  {
    PrefixedLinesSplit(p);
    if p.Bytes? && HasPrefix(p.content, "unshallow ") then
      var ss := SplitN(TrimSuffix(p.content, Newline), Space, 2);
      if |ss| < 2 then Halt(Some(SyntaxError(CannotSplit)))
      else Emit(ScanUnshallows, UnshallowChunk(ss[1]))
    else if p == Flush then Emit(BeginAcknowledgements, EndOfShallowsChunk)
    else AckSection(st, p)
  }

  /** The shallow section, falling through to the unshallow section. */
  function ShallowSection(st: State, p: Packet): (r: Transition<State, UploadResponseChunk>)
    requires Rank(st) <= 1
    ensures Keeps(st, p, r)
  {
    PrefixedLinesSplit(p);
    if p.Bytes? && HasPrefix(p.content, "shallow ") then
      var ss := SplitN(TrimSuffix(p.content, Newline), Space, 2);
      if |ss| < 2 then Halt(Some(SyntaxError(CannotSplit)))
      else Emit(ScanShallows, ShallowChunk(ss[1]))
    else UnshallowSection(st, p)
  }

  /** The packets a response may start with: a shallow, unshallow, ACK or NAK line, or the flush closing the shallow lines. */
  predicate OpensResponse(p: Packet) {
    || p == Flush
    || p == Bytes(NakLine)
    || (p.Bytes? && (HasPrefix(p.content, "shallow ") || HasPrefix(p.content, "unshallow ") || HasPrefix(p.content, "ACK ")))
  }

  /**
   * One call of `Scan` past its guard, from state `st` on the scanner's
   * outcome `o`: the section the state names is tried first, then the later
   * ones. The state never moves back, every chunk moves it to the chunk's
   * own section, and the "cannot split" errors of the source cannot happen.
   */
  function Step(st: State, o: ScanOutcome): (r: Transition<State, UploadResponseChunk>)
    requires st != End
    ensures o.Scanned? ==> Keeps(st, o.packet, r)
    ensures r.Emit? || r.Skip? ==> o.Scanned?
    ensures o.Stopped? ==> r == Halt(Stop(st, o.err))
    ensures o == Scanned(Flush) ==>
      r == if Rank(st) <= 2 then Emit(BeginAcknowledgements, EndOfShallowsChunk) else Emit(End, EndOfRequestChunk)
    ensures o == Scanned(PackFileIndicator) ==>
      r == if st == Begin then Halt(Some(SyntaxError(UnexpectedPacket))) else Skip(ScanPacks)
    ensures o.Scanned? && o.packet.PackFile? ==>
      r == if st == Begin then Halt(Some(SyntaxError(UnexpectedPacket))) else Emit(ScanPacks, PackChunk(o.packet.chunk))
    ensures o.Scanned? && (o.packet.Delim? || o.packet.ErrorPacket?) ==> r == Halt(Some(SyntaxError(UnexpectedPacket)))
    ensures st == Begin && o.Scanned? ==> (r.Halt? <==> !OpensResponse(o.packet))
  {
    match o
    case Stopped(e) => Halt(Stop(st, e))
    case Scanned(p) =>
      match st
      case Begin => ShallowSection(st, p)
      case ScanShallows => ShallowSection(st, p)
      case ScanUnshallows => UnshallowSection(st, p)
      case BeginAcknowledgements => AckSection(st, p)
      case ScanAcknowledgements => AckSection(st, p)
      case ScanPacks => PackSection(p)
  }

  /** A line that starts with `word` and a space splits into at least two pieces, even after its newline is trimmed. */
  lemma SplitNFindsSeparator(line: seq<byte>, word: seq<byte>, n: nat)
    requires n >= 2 && HasPrefix(line, word + [Space])
    ensures |SplitN(TrimSuffix(line, Newline), Space, n)| >= 2
  {
    var prefix := word + [Space];
    TrimNewlineKeepsPrefix(line, prefix);
    var s := TrimSuffix(line, Newline);
    assert s[|word|] == prefix[|word|];
  }

  /** The "shallow ", "unshallow " and "ACK " lines always split, so the source's "cannot split" errors cannot happen. */
  lemma PrefixedLinesSplit(p: Packet)
    ensures p.Bytes? && HasPrefix(p.content, "shallow ") ==>
      |SplitN(TrimSuffix(p.content, Newline), Space, 2)| >= 2
    ensures p.Bytes? && HasPrefix(p.content, "unshallow ") ==>
      |SplitN(TrimSuffix(p.content, Newline), Space, 2)| >= 2
    ensures p.Bytes? && HasPrefix(p.content, "ACK ") ==>
      |SplitN(TrimSuffix(p.content, Newline), Space, 3)| >= 2
  {
    if p.Bytes? {
      if HasPrefix(p.content, "shallow ") { SplitNFindsSeparator(p.content, "shallow", 2); }
      if HasPrefix(p.content, "unshallow ") { SplitNFindsSeparator(p.content, "unshallow", 2); }
      if HasPrefix(p.content, "ACK ") { SplitNFindsSeparator(p.content, "ACK", 3); }
    }
  }

  /** `Scan` returns false at once after an error or at the end of the response. */
  predicate Stuck(f: ParserState<State, UploadResponseChunk>) {
    f.err.Some? || f.state == End
  }

  /** The fields after one call of `Scan` on outcome `o`, and what it returns. */
  function AfterScan(f: ParserState<State, UploadResponseChunk>, o: ScanOutcome): (ParserState<State, UploadResponseChunk>, bool) {
    if Stuck(f) then (f, false) else Apply(f, Step(f.state, o))
  }

  /** The chunks one call of `Scan` reports. */
  function Reported(f: ParserState<State, UploadResponseChunk>, o: ScanOutcome): seq<UploadResponseChunk> {
    if Stuck(f) then [] else Emitted(Step(f.state, o))
  }

  /** `Scan` called until it returns false: the chunks reported, the last state and the error. */
  datatype RunResult = RunResult(chunks: seq<UploadResponseChunk>, state: State, err: Option<Error>)

  /** The parser from state `st` fed the outcomes `os` in turn. */
  function Run(st: State, os: seq<ScanOutcome>): RunResult
    decreases |os|
  {
    if |os| == 0 || st == End then RunResult([], st, None)
    else
      match Step(st, os[0])
      case Emit(n, c) =>
        var r := Run(n, os[1..]);
        RunResult([c] + r.chunks, r.state, r.err)
      case Skip(n) => Run(n, os[1..])
      case Halt(e) => RunResult([], st, e)
  }

  /** `UploadResponse`: reads an upload-pack response from its packet scanner. */
  class UploadResponse {
    const scanner: PacketScanner
    var state: State
    var err: Option<Error>
    var curr: Option<UploadResponseChunk>
    /** The chunks `Scan` has reported so far. */
    ghost var chunks: seq<UploadResponseChunk>

    ghost predicate Valid()
      reads this, scanner
    {
      scanner.Valid() && InOrder(chunks, state)
    }

    ghost function Snapshot(): ParserState<State, UploadResponseChunk>
      reads this
    {
      ParserState(state, err, curr)
    }

    /** `NewUploadResponse`. */
    constructor (input: seq<byte>)
      ensures Valid() && fresh(scanner) && scanner.input == input
      ensures scanner.State() == ScannerState(0, None, None, false)
      ensures Snapshot() == ParserState(Begin, None, None) && chunks == []
    {
      scanner := new PacketScanner(input);
      state := Begin;
      err := None;
      curr := None;
      chunks := [];
    }

    /** `Err`: the first error other than the clean end of the input. */
    function Err(): Option<Error>
      reads this
    {
      err
    }

    /** `Chunk`: the chunk of the last `Scan` that reported one. */
    function Chunk(): Option<UploadResponseChunk>
      reads this
    {
      curr
    }

    /**
     * `Scan`: read the next chunk; false once the response ends or an error
     * is set. When the scanner stops, its error is kept, as `Stop` says.
     */
    method Scan() returns (ok: bool)
      requires Valid()
      modifies this, scanner
      ensures Valid()
      ensures (Snapshot(), ok) == AfterScan(old(Snapshot()), old(scanner.Upcoming()))
      ensures chunks == old(chunks) + Reported(old(Snapshot()), old(scanner.Upcoming()))
      ensures scanner.State() == if Stuck(old(Snapshot())) then old(scanner.State())
                                 else Advance(scanner.input, old(scanner.State()))
    {
      if err.Some? || state == End {
        return false;
      }
      ghost var o := scanner.Upcoming();
      var more := scanner.Scan();
      if !more {
        err := scanner.Err();
        if err.None? && state != BeginAcknowledgements && state != ScanPacks {
          err := Some(SyntaxError(EarlyEOF));
        }
        return false;
      }
      var pkt := scanner.Current().value;
      assert o == Scanned(pkt);
      ok := ScanPacket(pkt);
    }

    /** The body of `Scan` once the scanner has produced `pkt`: the switch on the state. */
    method ScanPacket(pkt: Packet) returns (ok: bool)
      requires err.None? && state != End && InOrder(chunks, state)
      modifies this
      ensures InOrder(chunks, state)
      ensures (Snapshot(), ok) == Apply(old(Snapshot()), Step(old(state), Scanned(pkt)))
      ensures chunks == old(chunks) + Emitted(Step(old(state), Scanned(pkt)))
    {
      ghost var t := Step(state, Scanned(pkt));
      if t.Emit? {
        InOrderSnoc(chunks, state, t.chunk, t.next);
      } else if t.Skip? {
        InOrderLater(chunks, state, t.next);
      }
      if Rank(state) <= 1 {
        ok := ScanShallowSection(pkt);
      } else if Rank(state) <= 2 {
        ok := ScanUnshallowSection(pkt);
      } else if Rank(state) <= 4 {
        ok := ScanAckSection(pkt);
      } else {
        ok := ScanPackSection(pkt);
      }
    }

    /** The Begin and ScanShallows case: a "shallow " line, or on to the unshallow section. */
    method ScanShallowSection(pkt: Packet) returns (ok: bool)
      requires err.None? && Rank(state) <= 1
      modifies this
      ensures (Snapshot(), ok) == Apply(old(Snapshot()), ShallowSection(old(state), pkt))
      ensures chunks == old(chunks) + Emitted(ShallowSection(old(state), pkt))
    {
      if pkt.Bytes? && HasPrefix(pkt.content, "shallow ") {
        var ss := SplitN(TrimSuffix(pkt.content, Newline), Space, 2);
        if |ss| < 2 {
          err := Some(SyntaxError(CannotSplit));
          return false;
        }
        state := ScanShallows;
        curr := Some(ShallowChunk(ss[1]));
        chunks := chunks + [curr.value];
        return true;
      }
      ok := ScanUnshallowSection(pkt);
    }

    /** The ScanUnshallows case: an "unshallow " line or the flush, or on to the acknowledgements. */
    method ScanUnshallowSection(pkt: Packet) returns (ok: bool)
      requires err.None? && Rank(state) <= 2
      modifies this
      ensures (Snapshot(), ok) == Apply(old(Snapshot()), UnshallowSection(old(state), pkt))
      ensures chunks == old(chunks) + Emitted(UnshallowSection(old(state), pkt))
    {
      if pkt.Bytes? && HasPrefix(pkt.content, "unshallow ") {
        var ss := SplitN(TrimSuffix(pkt.content, Newline), Space, 2);
        if |ss| < 2 {
          err := Some(SyntaxError(CannotSplit));
          return false;
        }
        state := ScanUnshallows;
        curr := Some(UnshallowChunk(ss[1]));
        chunks := chunks + [curr.value];
        return true;
      }
      if pkt == Flush {
        state := BeginAcknowledgements;
        curr := Some(EndOfShallowsChunk);
        chunks := chunks + [curr.value];
        return true;
      }
      ok := ScanAckSection(pkt);
    }

    /** The acknowledgement cases: an "ACK " line or the NAK, an error at the start, or on to the pack section. */
    method ScanAckSection(pkt: Packet) returns (ok: bool)
      requires err.None? && Rank(state) <= 4
      modifies this
      ensures (Snapshot(), ok) == Apply(old(Snapshot()), AckSection(old(state), pkt))
      ensures chunks == old(chunks) + Emitted(AckSection(old(state), pkt))
    {
      if pkt.Bytes? && HasPrefix(pkt.content, "ACK ") {
        var ss := SplitN(TrimSuffix(pkt.content, Newline), Space, 3);
        if |ss| < 2 {
          err := Some(SyntaxError(CannotSplit));
          return false;
        }
        var detail: seq<byte> := [];
        if |ss| == 3 {
          detail := ss[2];
        }
        state := ScanAcknowledgements;
        curr := Some(AckChunk(ss[1], detail));
        chunks := chunks + [curr.value];
        return true;
      }
      if pkt == Bytes(NakLine) {
        state := ScanPacks;
        curr := Some(NakChunk);
        chunks := chunks + [curr.value];
        return true;
      }
      if state == Begin {
        err := Some(SyntaxError(UnexpectedPacket));
        return false;
      }
      ok := ScanPackSection(pkt);
    }

    /** The ScanPacks case: the final flush, pack data, or the "PACK" indicator, which leaves `Chunk` as it was. */
    method ScanPackSection(pkt: Packet) returns (ok: bool)
      requires err.None?
      modifies this
      ensures (Snapshot(), ok) == Apply(old(Snapshot()), PackSection(pkt))
      ensures chunks == old(chunks) + Emitted(PackSection(pkt))
    {
      match pkt
      case Flush =>
        state := End;
        curr := Some(EndOfRequestChunk);
        chunks := chunks + [curr.value];
        return true;
      case Bytes(data) =>
        state := ScanPacks;
        curr := Some(PackChunk(data));
        chunks := chunks + [curr.value];
        return true;
      case PackFile(data) =>
        state := ScanPacks;
        curr := Some(PackChunk(data));
        chunks := chunks + [curr.value];
        return true;
      case PackFileIndicator =>
        state := ScanPacks;
        return true;
      case _ =>
        err := Some(SyntaxError(UnexpectedPacket));
        return false;
    }
  }

  // ---------------------------------------------------------------------------
  // Properties

  /** Chunks in order up to `q` stay in order up to any later state. */
  lemma InOrderLater(cs: seq<UploadResponseChunk>, q: State, q': State)
    requires InOrder(cs, q) && Rank(q) <= Rank(q')
    ensures InOrder(cs, q')
  {
  }

  /** One more chunk that moves the state forward to its own section keeps the chunks in order. */
  lemma InOrderSnoc(cs: seq<UploadResponseChunk>, q: State, c: UploadResponseChunk, q': State)
    requires InOrder(cs, q) && Rank(q) <= Rank(q')
    requires KindOf(c) != Blank ==> GrammarNext(q, KindOf(c)) == Some(q')
    ensures InOrder(cs + [c], q')
  {
    var cs' := cs + [c];
    forall i, j | 0 <= i < j < |cs'| && KindOf(cs'[i]) != Blank && KindOf(cs'[j]) != Blank
      ensures Section(KindOf(cs'[i])) <= Section(KindOf(cs'[j]))
    {
      if j == |cs| {
        assert cs'[i] == cs[i];
      } else {
        assert cs'[i] == cs[i] && cs'[j] == cs[j];
      }
    }
  }

  /** The chunks of a run that are past state `q`'s section or in it. */
  predicate From(cs: seq<UploadResponseChunk>, q: State) {
    forall i | 0 <= i < |cs| && KindOf(cs[i]) != Blank :: Rank(q) <= Section(KindOf(cs[i]))
  }

  /** A chunk of the section the parser moved to, put before chunks that come no earlier, keeps them in order. */
  lemma InOrderCons(st: State, c: UploadResponseChunk, n: State, cs: seq<UploadResponseChunk>, q: State)
    requires InOrder(cs, q) && From(cs, n) && Rank(st) <= Rank(n) <= Rank(q)
    requires KindOf(c) != Blank ==> Section(KindOf(c)) == Rank(n)
    ensures InOrder([c] + cs, q) && From([c] + cs, st)
  {
    var cs' := [c] + cs;
    forall i | 0 <= i < |cs'| && KindOf(cs'[i]) != Blank
      ensures Section(KindOf(cs'[i])) <= Rank(q) && Rank(st) <= Section(KindOf(cs'[i]))
    {
      if i > 0 { assert cs'[i] == cs[i - 1]; }
    }
    forall i, j | 0 <= i < j < |cs'| && KindOf(cs'[i]) != Blank && KindOf(cs'[j]) != Blank
      ensures Section(KindOf(cs'[i])) <= Section(KindOf(cs'[j]))
    {
      assert cs'[j] == cs[j - 1];
      if i > 0 { assert cs'[i] == cs[i - 1]; }
    }
  }

  /**
   * The state never moves backward, and the chunks a run reports come in
   * section order, none before the section it started in and none past the
   * state it ends in.
   */
  lemma {:induction false} RunInOrder(st: State, os: seq<ScanOutcome>)
    ensures var r := Run(st, os);
            Rank(st) <= Rank(r.state) && InOrder(r.chunks, r.state) && From(r.chunks, st)
    decreases |os|
  {
    if |os| > 0 && st != End {
      match Step(st, os[0])
      case Emit(n, c) =>
        RunInOrder(n, os[1..]);
        var r := Run(n, os[1..]);
        InOrderCons(st, c, n, r.chunks, r.state);
      case Skip(n) =>
        RunInOrder(n, os[1..]);
      case Halt(_) =>
    }
  }

  /** A "shallow " line in the shallow section: its object id is the rest of the line without its newline. */
  lemma ShallowSectionLine(st: State, line: seq<byte>)
    requires Rank(st) <= 1 && HasPrefix(line, "shallow ")
    ensures HasPrefix(TrimSuffix(line, Newline), "shallow ")
    ensures ShallowSection(st, Bytes(line)) == Emit(ScanShallows, ShallowChunk(TrimSuffix(line, Newline)[8..]))
  {
    assert "shallow" + [Space] == "shallow ";
    WordLineSplit(line, "shallow");
  }

  /** An "unshallow " line up to the unshallow section: its object id is the rest of the line without its newline. */
  lemma UnshallowSectionLine(st: State, line: seq<byte>)
    requires Rank(st) <= 2 && HasPrefix(line, "unshallow ")
    ensures HasPrefix(TrimSuffix(line, Newline), "unshallow ")
    ensures UnshallowSection(st, Bytes(line)) == Emit(ScanUnshallows, UnshallowChunk(TrimSuffix(line, Newline)[10..]))
  {
    assert "unshallow" + [Space] == "unshallow ";
    WordLineSplit(line, "unshallow");
  }

  /** A line that is none of the lines the earlier sections take is pack data past Begin. */
  lemma AckSectionPackLine(st: State, line: seq<byte>)
    requires 1 <= Rank(st) <= 4 && !HasPrefix(line, "ACK ") && line != NakLine
    ensures AckSection(st, Bytes(line)) == Emit(ScanPacks, PackChunk(line))
  {
  }

  /**
   * A "shallow " line: in the shallow section its object id is the rest of
   * the line without its newline; later it is pack data.
   */
  lemma ScanShallowLine(st: State, line: seq<byte>)
    requires st != End && HasPrefix(line, "shallow ")
    ensures HasPrefix(TrimSuffix(line, Newline), "shallow ")
    ensures Step(st, Scanned(Bytes(line)))
            == if Rank(st) <= 1 then Emit(ScanShallows, ShallowChunk(TrimSuffix(line, Newline)[8..]))
               else Emit(ScanPacks, PackChunk(line))
  {
    TrimNewlineKeepsPrefix(line, "shallow ");
    if Rank(st) <= 1 {
      ShallowSectionLine(st, line);
    } else {
      PrefixesClash(line, "shallow ", "unshallow ");
      PrefixesClash(line, "shallow ", "ACK ");
      if Rank(st) <= 4 {
        AckSectionPackLine(st, line);
      }
    }
  }

  /**
   * An "unshallow " line: up to the unshallow section its object id is the
   * rest of the line without its newline; later it is pack data.
   */
  lemma ScanUnshallowLine(st: State, line: seq<byte>)
    requires st != End && HasPrefix(line, "unshallow ")
    ensures HasPrefix(TrimSuffix(line, Newline), "unshallow ")
    ensures Step(st, Scanned(Bytes(line)))
            == if Rank(st) <= 2 then Emit(ScanUnshallows, UnshallowChunk(TrimSuffix(line, Newline)[10..]))
               else Emit(ScanPacks, PackChunk(line))
  {
    TrimNewlineKeepsPrefix(line, "unshallow ");
    PrefixesClash(line, "unshallow ", "shallow ");
    if Rank(st) <= 2 {
      UnshallowSectionLine(st, line);
    } else {
      PrefixesClash(line, "unshallow ", "ACK ");
      if Rank(st) <= 4 {
        AckSectionPackLine(st, line);
      }
    }
  }

  /** How an "ACK " line splits: the fields after "ACK" are the text up to the next space and the rest. */
  lemma AckSplit(line: seq<byte>)
    requires HasPrefix(line, "ACK ")
    ensures HasPrefix(TrimSuffix(line, Newline), "ACK ")
    ensures var ss := SplitN(TrimSuffix(line, Newline), Space, 3);
            var t := TrimSuffix(line, Newline)[4..];
            && |ss| >= 2
            && (Space in t ==> var i := IndexOf(t, Space).value; ss[1] == t[..i] && |ss| == 3 && ss[2] == t[i + 1..])
            && (Space !in t ==> ss == ["ACK", t])
  {
    var s := TrimSuffix(line, Newline);
    TrimNewlineKeepsPrefix(line, "ACK ");
    SplitNAfterWord(s, "ACK", Space, 3);
    var t := s[4..];
    if Space in t {
      var i := IndexOf(t, Space).value;
      assert HasPrefix(t, t[..i] + [Space]) by {
        assert t[..i + 1] == t[..i] + [Space];
      }
      SplitNAfterWord(t, t[..i], Space, 2);
    }
  }

  /** The acknowledgement section on an "ACK " line. */
  lemma AckSectionLine(st: State, line: seq<byte>)
    requires Rank(st) <= 4 && HasPrefix(line, "ACK ")
    ensures HasPrefix(TrimSuffix(line, Newline), "ACK ")
    ensures var t := TrimSuffix(line, Newline)[4..];
            AckSection(st, Bytes(line))
            == if Space in t then
                 var i := IndexOf(t, Space).value;
                 Emit(ScanAcknowledgements, AckChunk(t[..i], t[i + 1..]))
               else Emit(ScanAcknowledgements, AckChunk(t, []))
  {
    AckSplit(line);
  }

  /**
   * An "ACK " line: up to the acknowledgement section, the object id runs to
   * the next space and the detail is everything after it (empty when there
   * is no space); in the pack section it is pack data.
   */
  lemma ScanAckLine(st: State, line: seq<byte>)
    requires st != End && HasPrefix(line, "ACK ")
    ensures HasPrefix(TrimSuffix(line, Newline), "ACK ")
    ensures var t := TrimSuffix(line, Newline)[4..];
            Step(st, Scanned(Bytes(line)))
            == if Rank(st) == 5 then Emit(ScanPacks, PackChunk(line))
               else if Space in t then
                 var i := IndexOf(t, Space).value;
                 Emit(ScanAcknowledgements, AckChunk(t[..i], t[i + 1..]))
               else Emit(ScanAcknowledgements, AckChunk(t, []))
  {
    var p := Bytes(line);
    assert line[0] == line[..4][0];
    assert !HasPrefix(line, "shallow ") && !HasPrefix(line, "unshallow ");
    if Rank(st) <= 4 {
      AckSectionLine(st, line);
      if Rank(st) <= 2 {
        assert UnshallowSection(st, p) == AckSection(st, p);
        if Rank(st) <= 1 {
          assert ShallowSection(st, p) == UnshallowSection(st, p);
        }
      }
    } else {
      TrimNewlineKeepsPrefix(line, "ACK ");
    }
  }

  /** The exact line "NAK\n": up to the acknowledgement section it is the NAK; in the pack section, pack data. */
  lemma ScanNakLine(st: State)
    requires st != End
    ensures Step(st, Scanned(Bytes(NakLine))) == Emit(ScanPacks, if Rank(st) <= 4 then NakChunk else PackChunk(NakLine))
  {
    if Rank(st) <= 4 {
      NakSectionLine(st);
    }
  }

  /** The acknowledgement section on the exact line "NAK\n". */
  lemma NakSectionLine(st: State)
    requires Rank(st) <= 4
    ensures AckSection(st, Bytes(NakLine)) == Emit(ScanPacks, NakChunk)
  {
    assert !HasPrefix(NakLine, "ACK ") by {
      assert NakLine[..4][0] == 'N';
    }
  }

  /** Any other line is an error at the start of a response and pack data everywhere else. */
  lemma ScanOtherLine(st: State, line: seq<byte>)
    requires st != End && !OpensResponse(Bytes(line))
    ensures Step(st, Scanned(Bytes(line)))
            == if st == Begin then Halt(Some(SyntaxError(UnexpectedPacket))) else Emit(ScanPacks, PackChunk(line))
  {
  }

  /** The chunks the parser emits, in the shape the encoder writes back as the same packet. */
  predicate WellFormed(c: UploadResponseChunk) {
    match KindOf(c)
    case Shallow => c == ShallowChunk(c.shallowObjectID)
    case Unshallow => c == UnshallowChunk(c.unshallowObjectID)
    case EndOfShallows => c == EndOfShallowsChunk
    case Ack => c == AckChunk(c.ackObjectID, c.ackDetail) && Space !in c.ackObjectID
    case Nak => c == NakChunk
    case PackData =>
      c == PackChunk(c.packStream) && !OpensResponse(Bytes(c.packStream)) && !HasPrefix(c.packStream, "ERR ")
    case EndOfRequest => c == EndOfRequestChunk
    case Blank => false
  }

  /** A well-formed chunk is written as a packet the scanner reads back as itself. */
  lemma EncodedFramed(c: UploadResponseChunk)
    requires WellFormed(c) && Encodable(c)
    ensures Framed(ToPacket(c))
  {
    var p := ToPacket(c);
    if p.Bytes? && KindOf(c) != PackData {
      assert p.content[0] == (p.content[..4])[0];
    }
  }

  /** An encoded "shallow" line is read back as the same object id in the shallow section. */
  lemma ParseEncodedShallow(st: State, oid: seq<byte>)
    requires Rank(st) <= 1 && oid != [] && Encodable(ShallowChunk(oid))
    ensures Step(st, Scanned(ToPacket(ShallowChunk(oid)))) == Emit(ScanShallows, ShallowChunk(oid))
  {
    var s := "shallow " + oid;
    assert ToPacket(ShallowChunk(oid)).content == s + Newline;
    TrimNewline(s);
    ScanShallowLine(st, s + Newline);
    assert s[8..] == oid;
  }

  /** An encoded "unshallow" line is read back as the same object id up to the unshallow section. */
  lemma ParseEncodedUnshallow(st: State, oid: seq<byte>)
    requires Rank(st) <= 2 && oid != [] && Encodable(UnshallowChunk(oid))
    ensures Step(st, Scanned(ToPacket(UnshallowChunk(oid)))) == Emit(ScanUnshallows, UnshallowChunk(oid))
  {
    var s := "unshallow " + oid;
    assert ToPacket(UnshallowChunk(oid)).content == s + Newline;
    TrimNewline(s);
    ScanUnshallowLine(st, s + Newline);
    assert s[10..] == oid;
  }

  /** An encoded "ACK" line without a detail is read back as the same object id. */
  lemma ParseEncodedBareAck(st: State, oid: seq<byte>)
    requires Rank(st) <= 4 && oid != [] && Space !in oid && Encodable(AckChunk(oid, []))
    ensures Step(st, Scanned(ToPacket(AckChunk(oid, [])))) == Emit(ScanAcknowledgements, AckChunk(oid, []))
  {
    var line := "ACK " + oid + Newline;
    assert ToPacket(AckChunk(oid, [])) == Bytes(line);
    TrimNewline("ACK " + oid);
    assert ("ACK " + oid)[4..] == oid;
    ScanAckLine(st, line);
  }

  /** An encoded "ACK" line with a detail is read back as the same object id and detail. */
  lemma ParseEncodedDetailedAck(st: State, oid: seq<byte>, detail: seq<byte>)
    requires Rank(st) <= 4 && oid != [] && Space !in oid && detail != [] && Encodable(AckChunk(oid, detail))
    ensures Step(st, Scanned(ToPacket(AckChunk(oid, detail)))) == Emit(ScanAcknowledgements, AckChunk(oid, detail))
  {
    var t := oid + [Space] + detail;
    var line := "ACK " + t + Newline;
    assert ToPacket(AckChunk(oid, detail)) == Bytes(line);
    TrimNewline("ACK " + t);
    assert ("ACK " + t)[4..] == t;
    ScanAckLine(st, line);
    IndexOfAfterWord(oid, Space, detail);
    assert t[..|oid|] == oid && t[|oid| + 1..] == detail;
  }

  /** An encoded "ACK" line whose object id has no space is read back as the same id and detail. */
  lemma ParseEncodedAck(st: State, oid: seq<byte>, detail: seq<byte>)
    requires Rank(st) <= 4 && oid != [] && Space !in oid && Encodable(AckChunk(oid, detail))
    ensures Step(st, Scanned(ToPacket(AckChunk(oid, detail)))) == Emit(ScanAcknowledgements, AckChunk(oid, detail))
  {
    if detail == [] {
      ParseEncodedBareAck(st, oid);
    } else {
      ParseEncodedDetailedAck(st, oid, detail);
    }
  }

  /** Encoded pack data is read back as the same data wherever pack data may come. */
  lemma ParseEncodedPack(st: State, data: seq<byte>)
    requires 1 <= Rank(st) <= 5 && Encodable(PackChunk(data)) && data != []
    requires st == ScanPacks || !OpensResponse(Bytes(data))
    ensures Step(st, Scanned(ToPacket(PackChunk(data)))) == Emit(ScanPacks, PackChunk(data))
  {
  }

  /** An encoded well-formed chunk is read back as itself, from any state where the grammar allows it. */
  lemma ParseEncoded(st: State, c: UploadResponseChunk)
    requires st != End && WellFormed(c) && Encodable(c) && GrammarNext(st, KindOf(c)).Some?
    ensures Framed(ToPacket(c))
    ensures Step(st, Scanned(ToPacket(c))) == Emit(GrammarNext(st, KindOf(c)).value, c)
  {
    EncodedFramed(c);
    match KindOf(c)
    case Shallow => ParseEncodedShallow(st, c.shallowObjectID);
    case Unshallow => ParseEncodedUnshallow(st, c.unshallowObjectID);
    case Ack => ParseEncodedAck(st, c.ackObjectID, c.ackDetail);
    case PackData => ParseEncodedPack(st, c.packStream);
    case Nak => ScanNakLine(st);
    case EndOfShallows =>
    case EndOfRequest =>
  }

  /** The packets `EncodeToPktLine` writes for `cs`, one per chunk. */
  function ToPackets(cs: seq<UploadResponseChunk>): (ps: seq<Packet>)
    requires forall c | c in cs :: Encodable(c)
    ensures |ps| == |cs| && forall i | 0 <= i < |cs| :: ps[i] == ToPacket(cs[i])
  {
    if |cs| == 0 then [] else [ToPacket(cs[0])] + ToPackets(cs[1..])
  }

  /** A complete response: well-formed, encodable chunks the grammar takes from Begin to End. */
  predicate Complete(cs: seq<UploadResponseChunk>) {
    Walk(Begin, cs) == Some(End) && forall c | c in cs :: WellFormed(c) && Encodable(c)
  }

  /** A run whose first outcome makes the parser report `c` and move to `n`. */
  lemma RunCons(st: State, o: ScanOutcome, os: seq<ScanOutcome>, n: State, c: UploadResponseChunk)
    requires st != End && Step(st, o) == Emit(n, c)
    ensures Run(st, [o] + os) == RunResult([c] + Run(n, os).chunks, Run(n, os).state, Run(n, os).err)
  {
    assert ([o] + os)[0] == o && ([o] + os)[1..] == os;
  }

  /** The packets `ps` are read from `st` as exactly the chunks `cs`, the last of them taking the parser to End. */
  ghost predicate ReadsBack(st: State, cs: seq<UploadResponseChunk>, ps: seq<Packet>)
    decreases |cs|
  {
    if |cs| == 0 then st == End && ps == []
    else
      && |ps| > 0 && st != End
      && var t := Step(st, Scanned(ps[0]));
         t.Emit? && t.chunk == cs[0] && ReadsBack(t.next, cs[1..], ps[1..])
  }

  /** Packets read back as chunks are reported as those chunks by `Run`, whatever follows them. */
  lemma {:induction false} RunOfReadBack(st: State, cs: seq<UploadResponseChunk>, ps: seq<Packet>, os: seq<ScanOutcome>)
    requires ReadsBack(st, cs, ps)
    requires |ps| <= |os| && forall i | 0 <= i < |ps| :: os[i] == Scanned(ps[i])
    ensures Run(st, os) == RunResult(cs, End, None)
    decreases |cs|
  {
    if |cs| > 0 {
      var t := Step(st, Scanned(ps[0]));
      assert os[0] == Scanned(ps[0]);
      RunCons(st, os[0], os[1..], t.next, t.chunk);
      assert [os[0]] + os[1..] == os;
      RunOfReadBack(t.next, cs[1..], ps[1..], os[1..]);
      assert [cs[0]] + cs[1..] == cs;
    }
  }

  /** The packets of well-formed chunks that finish the response from `st` are read back as those chunks. */
  lemma {:induction false} EncodedReadsBack(st: State, cs: seq<UploadResponseChunk>)
    requires Walk(st, cs) == Some(End) && forall c | c in cs :: WellFormed(c) && Encodable(c)
    ensures ReadsBack(st, cs, ToPackets(cs))
    decreases |cs|
  {
    if |cs| > 0 {
      assert cs[0] in cs;
      assert st != End;
      ParseEncoded(st, cs[0]);
      assert forall x | x in cs[1..] :: x in cs;
      EncodedReadsBack(GrammarNext(st, KindOf(cs[0])).value, cs[1..]);
      assert ToPackets(cs)[1..] == ToPackets(cs[1..]);
    }
  }

  /** The packets of chunks that finish the response from `st` are parsed back into those chunks, whatever follows. */
  lemma RunOfPackets(st: State, cs: seq<UploadResponseChunk>, more: seq<Packet>, e: Option<Error>)
    requires Walk(st, cs) == Some(End) && forall c | c in cs :: WellFormed(c) && Encodable(c)
    ensures Run(st, Outcomes(ToPackets(cs) + more, e)) == RunResult(cs, End, None)
  {
    var ps := ToPackets(cs);
    EncodedReadsBack(st, cs);
    forall i | 0 <= i < |ps| ensures Outcomes(ps + more, e)[i] == Scanned(ps[i]) {
      assert (ps + more)[i] == ps[i];
    }
    RunOfReadBack(st, cs, ps, Outcomes(ps + more, e));
  }

  /**
   * A complete response, encoded and followed by anything, is read back as
   * the same chunks, ending in End with no error.
   */
  lemma ParseEncodedResponse(cs: seq<UploadResponseChunk>, rest: seq<byte>)
    requires Complete(cs)
    ensures forall p | p in ToPackets(cs) :: PktLine.Encodable(p) && Framed(p)
    ensures var (ps, e) := Packets(EncodeAll(ToPackets(cs)) + rest, false);
            Run(Begin, Outcomes(ps, e)) == RunResult(cs, End, None)
  {
    var ps := ToPackets(cs);
    forall p | p in ps ensures PktLine.Encodable(p) && Framed(p) {
      var i :| 0 <= i < |ps| && ps[i] == p;
      assert cs[i] in cs;
      EncodedFramed(cs[i]);
    }
    PacketsOfEncoding(ps, rest);
    RunOfPackets(Begin, cs, Packets(rest, false).0, Packets(rest, false).1);
  }

  /**
   * A response that is only the peer's "ERR" packet: the scanner stops at
   * once with the remote error. As written, the parser then reports no error
   * at all, so `Err` hides the peer's message; with `Stop`, the parser
   * reports that remote error.
   */
  lemma RemoteErrorDroppedAsWritten(m: seq<byte>, rest: seq<byte>)
    requires 4 + |m| <= MaxContentLength
    ensures Packets(PktLine.EncodeToPktLine(ErrorPacket(m)) + rest, false) == ([], Some(RemoteError(m)))
    ensures StopAsWritten(Begin, Some(RemoteError(m))) == None
    ensures var (ps, e) := Packets(PktLine.EncodeToPktLine(ErrorPacket(m)) + rest, false);
            Run(Begin, Outcomes(ps, e)) == RunResult([], Begin, Some(RemoteError(m)))
  {
    PacketsOfRemoteError(m, rest);
    assert Outcomes([], Some(RemoteError(m))) == [Stopped(Some(RemoteError(m)))];
  }
}
