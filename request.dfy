/**
 * The protocol-v2 request: any number of commands, each a "command=<name>"
 * line, capability lines, a delimiter, argument lines and a flush, and a
 * final flush that ends the request stream. `Request` reads it chunk by
 * chunk from a `PacketScanner`; each chunk has an encoder that writes it
 * back as one packet.
 */
module RequestV2 {
  import opened Wrappers
  import opened Strings
  import opened PktLine

  datatype State = Begin | ScanCapabilities | ScanArguments | End

  /** One chunk of a request; the encoder uses the first field that is set. */
  datatype RequestChunk = RequestChunk(
    command: seq<byte>,
    capability: seq<byte>,
    endCapability: bool,
    argument: seq<byte>,
    endArgument: bool,
    endRequest: bool)

  function CommandChunk(name: seq<byte>): RequestChunk {
    RequestChunk(name, [], false, [], false, false)
  }

  function CapabilityChunk(text: seq<byte>): RequestChunk {
    RequestChunk([], text, false, [], false, false)
  }

  function ArgumentChunk(arg: seq<byte>): RequestChunk {
    RequestChunk([], [], false, arg, false, false)
  }

  const EndCapabilityChunk := RequestChunk([], [], true, [], false, false)
  const EndArgumentChunk := RequestChunk([], [], false, [], true, false)
  const EndRequestChunk := RequestChunk([], [], false, [], false, true)

  // ---------------------------------------------------------------------------
  // The grammar of a request stream

  /**
   * Which part of a request a chunk is, by the encoder's field order. A chunk
   * with no field set is `Blank`: the encoder refuses it, and the parser
   * makes one from an empty command, capability or argument.
   */
  datatype Kind = Command | Capability | EndCapability | Argument | EndArgument | EndRequest | Blank

  function KindOf(c: RequestChunk): Kind {
    if c.command != [] then Command
    else if c.capability != [] then Capability
    else if c.endCapability then EndCapability
    else if c.argument != [] then Argument
    else if c.endArgument then EndArgument
    else if c.endRequest then EndRequest
    else Blank
  }

  /**
   * The order of a request stream,
   * `(Command Capability* EndCapability Argument* EndArgument)* EndRequest`,
   * as an automaton over the parser's states; a `Blank` chunk stands where an
   * empty command, capability or argument was read.
   */
  function GrammarNext(q: State, k: Kind): Option<State> {
    match (q, k)
    case (Begin, Command) => Some(ScanCapabilities)
    case (Begin, Blank) => Some(ScanCapabilities)
    case (Begin, EndRequest) => Some(End)
    case (ScanCapabilities, Capability) => Some(ScanCapabilities)
    case (ScanCapabilities, Blank) => Some(ScanCapabilities)
    case (ScanCapabilities, EndCapability) => Some(ScanArguments)
    case (ScanArguments, Argument) => Some(ScanArguments)
    case (ScanArguments, Blank) => Some(ScanArguments)
    case (ScanArguments, EndArgument) => Some(Begin)
    case _ => None
  }

  /** Where the grammar automaton is after reading `cs` from `q`, if it accepts them. */
  function Walk(q: State, cs: seq<RequestChunk>): Option<State>
    decreases |cs|
  {
    if |cs| == 0 then Some(q)
    else
      match GrammarNext(q, KindOf(cs[0]))
      case None => None
      case Some(q') => Walk(q', cs[1..])
  }

  // ---------------------------------------------------------------------------
  // The encoder

  /** The chunk has a field the encoder writes (it aborts otherwise) and the line fits in one packet. */
  predicate Encodable(c: RequestChunk) {
    match KindOf(c)
    case Command => |c.command| + 9 <= MaxContentLength
    case Capability => |c.capability| + 1 <= MaxContentLength
    case Argument => |c.argument| <= MaxContentLength
    case Blank => false
    case _ => true
  }

  /** The packet `EncodeToPktLine` writes. */
  function ToPacket(c: RequestChunk): (p: Packet)
    requires Encodable(c)
    ensures PktLine.Encodable(p)
  {
    if c.command != [] then Bytes("command=" + c.command + "\n")
    else if c.capability != [] then Bytes(c.capability + "\n")
    else if c.endCapability then Delim
    else if c.argument != [] then Bytes(c.argument)
    else Flush
  }

  /** `RequestChunk.EncodeToPktLine`. */
  function EncodeToPktLine(c: RequestChunk): (r: seq<byte>)
    requires Encodable(c)
    ensures KindOf(c) == Command ==> |r| > 4 && r[4..] == "command=" + c.command + "\n"
    ensures KindOf(c) == Capability ==> |r| > 4 && r[4..] == c.capability + "\n"
    ensures KindOf(c) == EndCapability ==> r == "0001"
    ensures KindOf(c) == Argument ==> |r| > 4 && r[4..] == c.argument
    ensures KindOf(c) == EndArgument || KindOf(c) == EndRequest ==> r == "0000"
  {
    PktLine.EncodeToPktLine(ToPacket(c))
  }

  // ---------------------------------------------------------------------------
  // The parser

  /**
   * One call of `Scan` past its guard, from state `st` on the scanner's
   * outcome `o`. A clean end of input is an error except between requests;
   * the scanner's own error is reported as it is.
   */
  function Step(st: State, o: ScanOutcome): (r: Transition<State, RequestChunk>)
    requires st != End
    ensures !r.Skip?
    ensures r.Emit? ==> o.Scanned? && GrammarNext(st, KindOf(r.chunk)) == Some(r.next)
    ensures r.Emit? && r.next == End ==> st == Begin && r.chunk == EndRequestChunk
    ensures r == Halt(None) <==> st == Begin && o == Stopped(None)
    ensures o == Stopped(None) && st != Begin ==> r == Halt(Some(SyntaxError(EarlyEOF)))
    ensures o.Stopped? && o.err.Some? ==> r == Halt(o.err)
    ensures o.Scanned? && !o.packet.Bytes? ==>
      r == match (st, o.packet)
           case (Begin, Flush) => Emit(End, EndRequestChunk)
           case (ScanCapabilities, Delim) => Emit(ScanArguments, EndCapabilityChunk)
           case (ScanArguments, Flush) => Emit(Begin, EndArgumentChunk)
           case _ => Halt(Some(SyntaxError(UnexpectedPacket)))
  {
    match o
    case Stopped(e) =>
      if e.None? && st != Begin then Halt(Some(SyntaxError(EarlyEOF))) else Halt(e)
    case Scanned(p) =>
      match st
      case Begin =>
        (match p
         case Flush => Emit(End, EndRequestChunk)
         case Bytes(line) =>
           if !HasPrefix(line, "command=") then Halt(Some(SyntaxError(UnexpectedPacket)))
           else Emit(ScanCapabilities, CommandChunk(TrimSuffix(TrimPrefix(line, "command="), Newline)))
         case _ => Halt(Some(SyntaxError(UnexpectedPacket))))
      case ScanCapabilities =>
        (match p
         case Delim => Emit(ScanArguments, EndCapabilityChunk)
         case Bytes(line) => Emit(ScanCapabilities, CapabilityChunk(TrimSuffix(line, Newline)))
         case _ => Halt(Some(SyntaxError(UnexpectedPacket))))
      case ScanArguments =>
        match p
        case Flush => Emit(Begin, EndArgumentChunk)
        case Bytes(arg) => Emit(ScanArguments, ArgumentChunk(arg))
        case _ => Halt(Some(SyntaxError(UnexpectedPacket)))
  }

  /** `Scan` returns false at once after an error or at the end of the request stream. */
  predicate Stuck(f: ParserState<State, RequestChunk>) {
    f.err.Some? || f.state == End
  }

  /** The fields after one call of `Scan` on outcome `o`, and what it returns. */
  function AfterScan(f: ParserState<State, RequestChunk>, o: ScanOutcome): (ParserState<State, RequestChunk>, bool) {
    if Stuck(f) then (f, false) else Apply(f, Step(f.state, o))
  }

  /** The chunks one call of `Scan` reports. */
  function Reported(f: ParserState<State, RequestChunk>, o: ScanOutcome): seq<RequestChunk> {
    if Stuck(f) then [] else Emitted(Step(f.state, o))
  }

  /** `Scan` called until it returns false: the chunks reported, the last state and the error. */
  datatype RunResult = RunResult(chunks: seq<RequestChunk>, state: State, err: Option<Error>)

  /** The parser from state `st` fed the outcomes `os` in turn. */
  function Run(st: State, os: seq<ScanOutcome>): RunResult
    decreases |os|
  {
    if |os| == 0 || st == End then RunResult([], st, None)
    else
      match Step(st, os[0])
      case Emit(n, c) =>
        var r := Run(n, os[1..]);
        RunResult([c] + r.chunks, r.state, r.err)
      case Halt(e) => RunResult([], st, e)
      case Skip(_) => assert false; RunResult([], st, None)
  }

  /** `Request`: reads a protocol-v2 request stream from its packet scanner. */
  class Request {
    const scanner: PacketScanner
    var state: State
    var err: Option<Error>
    var curr: Option<RequestChunk>
    /** The chunks `Scan` has reported so far. */
    ghost var chunks: seq<RequestChunk>

    ghost predicate Valid()
      reads this, scanner
    {
      scanner.Valid() && Walk(Begin, chunks) == Some(state)
    }

    ghost function Snapshot(): ParserState<State, RequestChunk>
      reads this
    {
      ParserState(state, err, curr)
    }

    /** `NewRequest`. */
    constructor (input: seq<byte>)
      ensures Valid() && fresh(scanner) && scanner.input == input
      ensures scanner.State() == ScannerState(0, None, None, false)
      ensures Snapshot() == ParserState(Begin, None, None) && chunks == []
    {
      scanner := new PacketScanner(input);
      state := Begin;
      err := None;
      curr := None;
      chunks := [];
    }

    /** `Err`: the first error other than the clean end of the input. */
    function Err(): Option<Error>
      reads this
    {
      err
    }

    /** `Chunk`: the chunk of the last successful `Scan`. */
    function Chunk(): Option<RequestChunk>
      reads this
    {
      curr
    }

    /** `Scan`: read the next chunk; false once the stream ends or an error is set. */
    method Scan() returns (ok: bool)
      requires Valid()
      modifies this, scanner
      ensures Valid()
      ensures (Snapshot(), ok) == AfterScan(old(Snapshot()), old(scanner.Upcoming()))
      ensures chunks == old(chunks) + Reported(old(Snapshot()), old(scanner.Upcoming()))
      ensures scanner.State() == if Stuck(old(Snapshot())) then old(scanner.State())
                                 else Advance(scanner.input, old(scanner.State()))
    {
      if err.Some? || state == End {
        return false;
      }
      ghost var o := scanner.Upcoming();
      var more := scanner.Scan();
      if !more {
        err := scanner.Err();
        if err.None? && state != Begin {
          err := Some(SyntaxError(EarlyEOF));
        }
        return false;
      }
      var pkt := scanner.Current().value;
      assert o == Scanned(pkt);
      ok := ScanPacket(pkt);
    }

    /** The body of `Scan` once the scanner has produced `pkt`: the switch on the state. */
    method ScanPacket(pkt: Packet) returns (ok: bool)
      requires err.None? && state != End && Walk(Begin, chunks) == Some(state)
      modifies this
      ensures Walk(Begin, chunks) == Some(state)
      ensures (Snapshot(), ok) == Apply(old(Snapshot()), Step(old(state), Scanned(pkt)))
      ensures chunks == old(chunks) + Emitted(Step(old(state), Scanned(pkt)))
    {
      ghost var t := Step(state, Scanned(pkt));
      if t.Emit? {
        WalkSnoc(Begin, chunks, t.chunk);
      }
      match state {
        case Begin =>
          match pkt {
            case Flush =>
              state := End;
              curr := Some(EndRequestChunk);
            case Bytes(line) =>
              if !HasPrefix(line, "command=") {
                err := Some(SyntaxError(UnexpectedPacket));
                return false;
              }
              state := ScanCapabilities;
              curr := Some(CommandChunk(TrimSuffix(TrimPrefix(line, "command="), Newline)));
            case _ =>
              err := Some(SyntaxError(UnexpectedPacket));
              return false;
          }
        case ScanCapabilities =>
          match pkt {
            case Delim =>
              state := ScanArguments;
              curr := Some(EndCapabilityChunk);
            case Bytes(line) =>
              curr := Some(CapabilityChunk(TrimSuffix(line, Newline)));
            case _ =>
              err := Some(SyntaxError(UnexpectedPacket));
              return false;
          }
        case ScanArguments =>
          match pkt {
            case Flush =>
              state := Begin;
              curr := Some(EndArgumentChunk);
            case Bytes(arg) =>
              curr := Some(ArgumentChunk(arg));
            case _ =>
              err := Some(SyntaxError(UnexpectedPacket));
              return false;
          }
      }
      chunks := chunks + [curr.value];
      return true;
    }
  }

  // ---------------------------------------------------------------------------
  // Properties

  /** Reading one more chunk moves the grammar automaton by that chunk's kind. */
  lemma {:induction false} WalkSnoc(q: State, cs: seq<RequestChunk>, c: RequestChunk)
    requires Walk(q, cs).Some?
    ensures Walk(q, cs + [c]) == GrammarNext(Walk(q, cs).value, KindOf(c))
    decreases |cs|
  {
    if |cs| == 0 {
      assert cs + [c] == [c];
    } else {
      assert (cs + [c])[1..] == cs[1..] + [c];
      WalkSnoc(GrammarNext(q, KindOf(cs[0])).value, cs[1..], c);
    }
  }

  /**
   * A command line re-encodes to the same packet exactly when it ended in a
   * newline: the parser strips "command=" and one trailing newline, and the
   * encoder always writes one back.
   */
  lemma CommandRoundTrip(line: seq<byte>)
    requires HasPrefix(line, "command=")
    ensures var r := Step(Begin, Scanned(Bytes(line)));
            r.Emit? && r.next == ScanCapabilities && r.chunk.command == TrimSuffix(line[8..], Newline)
            && (Encodable(r.chunk) ==> (ToPacket(r.chunk) == Bytes(line) <==> HasSuffix(line, Newline)))
  {
    CommandLine(line);
    var x := TrimSuffix(line[8..], Newline);
    if Encodable(CommandChunk(x)) && KindOf(CommandChunk(x)) == Command {
      assert ToPacket(CommandChunk(x)) == Bytes("command=" + x + Newline);
    }
    if HasSuffix(line, Newline) {
      RestoreNewline(line, "command=");
      assert "command=" + x + Newline == line;
    }
    if "command=" + x + Newline == line {
      assert line[|line| - 1..] == Newline;
    }
  }

  /**
   * A data line in Begin: a "command=" line names the command that follows
   * the prefix, without its newline; any other line is unexpected.
   */
  lemma CommandLine(line: seq<byte>)
    ensures Step(Begin, Scanned(Bytes(line)))
            == if HasPrefix(line, "command=")
               then Emit(ScanCapabilities, CommandChunk(TrimSuffix(line[8..], Newline)))
               else Halt(Some(SyntaxError(UnexpectedPacket)))
  {
    if HasPrefix(line, "command=") {
      assert TrimPrefix(line, "command=") == line[8..];
    }
  }

  /** A capability line re-encodes to the same packet exactly when it ended in a newline. */
  lemma CapabilityRoundTrip(line: seq<byte>)
    ensures var r := Step(ScanCapabilities, Scanned(Bytes(line)));
            r == Emit(ScanCapabilities, CapabilityChunk(TrimSuffix(line, Newline)))
            && (Encodable(r.chunk) ==> (ToPacket(r.chunk) == Bytes(line) <==> HasSuffix(line, Newline)))
  {
    var x := TrimSuffix(line, Newline);
    if x != [] && x + "\n" == line {
      assert line[|line| - 1..] == "\n";
    }
  }

  /** An argument is kept verbatim, so it re-encodes to the same packet. */
  lemma ArgumentRoundTrip(arg: seq<byte>)
    requires 1 <= |arg| <= MaxContentLength
    ensures Step(ScanArguments, Scanned(Bytes(arg))) == Emit(ScanArguments, ArgumentChunk(arg))
    ensures Encodable(ArgumentChunk(arg)) && ToPacket(ArgumentChunk(arg)) == Bytes(arg)
  {
  }

  /** The chunks a writer sends, in the shape the parser reads back as the same chunk. */
  predicate WellFormed(c: RequestChunk) {
    match KindOf(c)
    case Command => c == CommandChunk(c.command)
    case Capability => c == CapabilityChunk(c.capability) && !HasPrefix(c.capability + "\n", "ERR ")
    case EndCapability => c == EndCapabilityChunk
    case Argument => c == ArgumentChunk(c.argument) && !HasPrefix(c.argument, "ERR ")
    case EndArgument => c == EndArgumentChunk
    case EndRequest => c == EndRequestChunk
    case Blank => false
  }

  /** A well-formed chunk is written as a packet the scanner reads back as itself. */
  lemma EncodedFramed(c: RequestChunk)
    requires WellFormed(c) && Encodable(c)
    ensures Framed(ToPacket(c))
  {
    if KindOf(c) == Command {
      assert ToPacket(c).content[0] == 'c';
      assert ToPacket(c).content[..4][0] == 'c';
    }
  }

  /** An encoded well-formed chunk is read back as itself, from any state where the grammar allows it. */
  lemma ParseEncoded(st: State, c: RequestChunk)
    requires st != End && WellFormed(c) && Encodable(c) && GrammarNext(st, KindOf(c)).Some?
    ensures Framed(ToPacket(c))
    ensures Step(st, Scanned(ToPacket(c))) == Emit(GrammarNext(st, KindOf(c)).value, c)
  {
    EncodedFramed(c);
    match KindOf(c)
    case Command =>
      var line := "command=" + c.command + Newline;
      assert line[8..] == c.command + Newline;
      TrimNewline(c.command);
    case Capability =>
      TrimNewline(c.capability);
    case _ =>
  }

  /** The chunks `Run` reports follow the grammar, and the automaton ends in the parser's last state. */
  lemma {:induction false} RunFollowsGrammar(st: State, os: seq<ScanOutcome>)
    ensures Walk(st, Run(st, os).chunks) == Some(Run(st, os).state)
    decreases |os|
  {
    if |os| > 0 && st != End {
      match Step(st, os[0])
      case Emit(n, c) =>
        RunFollowsGrammar(n, os[1..]);
        var r := Run(n, os[1..]);
        assert ([c] + r.chunks)[1..] == r.chunks;
      case Halt(_) =>
    }
  }

  /** The packets `EncodeToPktLine` writes for `cs`, one per chunk. */
  function ToPackets(cs: seq<RequestChunk>): (ps: seq<Packet>)
    requires forall c | c in cs :: Encodable(c)
    ensures |ps| == |cs| && forall i | 0 <= i < |cs| :: ps[i] == ToPacket(cs[i])
  {
    if |cs| == 0 then [] else [ToPacket(cs[0])] + ToPackets(cs[1..])
  }

  /** A complete request stream: well-formed, encodable chunks the grammar takes from Begin to End. */
  predicate Complete(cs: seq<RequestChunk>) {
    Walk(Begin, cs) == Some(End) && forall c | c in cs :: WellFormed(c) && Encodable(c)
  }

  /** A run whose first outcome emits a chunk reports it ahead of the rest of the run. */
  lemma RunCons(st: State, o: ScanOutcome, os: seq<ScanOutcome>, n: State, c: RequestChunk)
    requires st != End && Step(st, o) == Emit(n, c)
    ensures Run(st, [o] + os) == RunResult([c] + Run(n, os).chunks, Run(n, os).state, Run(n, os).err)
  {
    assert ([o] + os)[0] == o && ([o] + os)[1..] == os;
  }

  /** The packets `ps` are read from `st` as exactly the chunks `cs`, the last of them taking the parser to End. */
  ghost predicate ReadsBack(st: State, cs: seq<RequestChunk>, ps: seq<Packet>)
    decreases |cs|
  {
    if |cs| == 0 then st == End && ps == []
    else
      && |ps| > 0 && st != End
      && var t := Step(st, Scanned(ps[0]));
         t.Emit? && t.chunk == cs[0] && ReadsBack(t.next, cs[1..], ps[1..])
  }

  /** Packets read back as chunks are reported as those chunks by `Run`, whatever follows them. */
  lemma {:induction false} RunOfReadBack(st: State, cs: seq<RequestChunk>, ps: seq<Packet>, os: seq<ScanOutcome>)
    requires ReadsBack(st, cs, ps)
    requires |ps| <= |os| && forall i | 0 <= i < |ps| :: os[i] == Scanned(ps[i])
    ensures Run(st, os) == RunResult(cs, End, None)
    decreases |cs|
  {
    if |cs| > 0 {
      var t := Step(st, Scanned(ps[0]));
      assert os[0] == Scanned(ps[0]);
      RunCons(st, os[0], os[1..], t.next, t.chunk);
      assert [os[0]] + os[1..] == os;
      RunOfReadBack(t.next, cs[1..], ps[1..], os[1..]);
      assert [cs[0]] + cs[1..] == cs;
    }
  }

  /** The packets of well-formed chunks that finish the stream from `st` are read back as those chunks. */
  lemma {:induction false} EncodedReadsBack(st: State, cs: seq<RequestChunk>)
    requires Walk(st, cs) == Some(End) && forall c | c in cs :: WellFormed(c) && Encodable(c)
    ensures ReadsBack(st, cs, ToPackets(cs))
    decreases |cs|
  {
    if |cs| > 0 {
      assert cs[0] in cs;
      assert st != End;
      ParseEncoded(st, cs[0]);
      assert forall x | x in cs[1..] :: x in cs;
      EncodedReadsBack(GrammarNext(st, KindOf(cs[0])).value, cs[1..]);
      assert ToPackets(cs)[1..] == ToPackets(cs[1..]);
    }
  }

  /** The packets of chunks that finish the stream from `st` are parsed back into those chunks, whatever follows. */
  lemma RunOfPackets(st: State, cs: seq<RequestChunk>, more: seq<Packet>, e: Option<Error>)
    requires Walk(st, cs) == Some(End) && forall c | c in cs :: WellFormed(c) && Encodable(c)
    ensures Run(st, Outcomes(ToPackets(cs) + more, e)) == RunResult(cs, End, None)
  {
    var ps := ToPackets(cs);
    EncodedReadsBack(st, cs);
    forall i | 0 <= i < |ps| ensures Outcomes(ps + more, e)[i] == Scanned(ps[i]) {
      assert (ps + more)[i] == ps[i];
    }
    RunOfReadBack(st, cs, ps, Outcomes(ps + more, e));
  }

  /**
   * A complete request stream, encoded and followed by anything, is read
   * back as the same chunks, ending in End with no error.
   */
  lemma ParseEncodedStream(cs: seq<RequestChunk>, rest: seq<byte>)
    requires Complete(cs)
    ensures forall p | p in ToPackets(cs) :: PktLine.Encodable(p) && Framed(p)
    ensures var (ps, e) := Packets(EncodeAll(ToPackets(cs)) + rest, false);
            Run(Begin, Outcomes(ps, e)) == RunResult(cs, End, None)
  {
    var ps := ToPackets(cs);
    forall p | p in ps ensures PktLine.Encodable(p) && Framed(p) {
      var i :| 0 <= i < |ps| && ps[i] == p;
      assert cs[i] in cs;
      EncodedFramed(cs[i]);
    }
    PacketsOfEncoding(ps, rest);
    RunOfPackets(Begin, cs, Packets(rest, false).0, Packets(rest, false).1);
  }
}
