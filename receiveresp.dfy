/**
 * The protocol-v1 git-receive-pack response: an "unpack <status>" line, one
 * "ok <ref>" or "ng <ref> <message>" line per updated reference, and a flush.
 * `ReceiveResponse` reads it chunk by chunk from a `PacketScanner`; each
 * chunk has an encoder that writes it back as one packet.
 */
module ReceiveResp {
  import opened Wrappers
  import opened Strings
  import opened PktLine

  datatype State = Begin | ScanResult | End

  /** One chunk of the response; the encoder and the parser use the first field that is set. */
  datatype ReceiveResponseChunk = ReceiveResponseChunk(
    unpackStatus: seq<byte>,
    refUpdateStatus: seq<byte>,
    refName: seq<byte>,
    refUpdateFailMessage: seq<byte>,
    endOfResponse: bool)

  function UnpackChunk(status: seq<byte>): ReceiveResponseChunk {
    ReceiveResponseChunk(status, [], [], [], false)
  }

  function RefUpdateChunk(status: seq<byte>, name: seq<byte>, message: seq<byte>): ReceiveResponseChunk {
    ReceiveResponseChunk([], status, name, message, false)
  }

  const EndOfResponseChunk := ReceiveResponseChunk([], [], [], [], true)

  // ---------------------------------------------------------------------------
  // The grammar of a response

  datatype Kind = UnpackLine | RefUpdateLine | EndOfResponse

  /**
   * Which part of the response a chunk is, testing the fields in the
   * encoder's order. A chunk with no field set can only come from an
   * `unpack ` line with an empty status.
   */
  function KindOf(c: ReceiveResponseChunk): Kind {
    if c.unpackStatus != [] then UnpackLine
    else if c.refUpdateStatus != [] then RefUpdateLine
    else if c.endOfResponse then EndOfResponse
    else UnpackLine
  }

  /**
   * The order of a response, `UnpackLine RefUpdateLine* EndOfResponse`, as an
   * automaton over the parser's states.
   */
  function GrammarNext(q: State, k: Kind): Option<State> {
    match (q, k)
    case (Begin, UnpackLine) => Some(ScanResult)
    case (ScanResult, RefUpdateLine) => Some(ScanResult)
    case (ScanResult, EndOfResponse) => Some(End)
    case _ => None
  }

  /** Where the grammar automaton is after reading `cs` from `q`, if it accepts them. */
  function Walk(q: State, cs: seq<ReceiveResponseChunk>): Option<State>
    decreases |cs|
  {
    if |cs| == 0 then Some(q)
    else
      match GrammarNext(q, KindOf(cs[0]))
      case None => None
      case Some(q') => Walk(q', cs[1..])
  }

  // ---------------------------------------------------------------------------
  // The encoder

  /** The chunk has a field the encoder writes (it aborts otherwise) and the line fits in one packet. */
  predicate Encodable(c: ReceiveResponseChunk) {
    if c.unpackStatus != [] then |c.unpackStatus| + 8 <= MaxContentLength
    else if c.refUpdateStatus != [] then
      |c.refUpdateStatus| + |c.refName| + |c.refUpdateFailMessage|
      + (if c.refUpdateFailMessage == [] then 2 else 3) <= MaxContentLength
    else c.endOfResponse
  }

  /**
   * `Encodable` is exactly the condition under which the Go encoder does not
   * panic: a field is set, and the line it formats fits in one data packet.
   */
  lemma EncodableExactly(c: ReceiveResponseChunk)
    ensures c.unpackStatus != [] ==>
      (Encodable(c) <==> |"unpack " + c.unpackStatus + "\n"| <= MaxContentLength)
    ensures c.unpackStatus == [] && c.refUpdateStatus != [] && c.refUpdateFailMessage == [] ==>
      (Encodable(c) <==> |c.refUpdateStatus + " " + c.refName + "\n"| <= MaxContentLength)
    ensures c.unpackStatus == [] && c.refUpdateStatus != [] && c.refUpdateFailMessage != [] ==>
      (Encodable(c) <==> |c.refUpdateStatus + " " + c.refName + " " + c.refUpdateFailMessage + "\n"| <= MaxContentLength)
    ensures c.unpackStatus == [] && c.refUpdateStatus == [] ==> (Encodable(c) <==> c.endOfResponse)
  {
  }

  /** The packet `EncodeToPktLine` writes. */
  function ToPacket(c: ReceiveResponseChunk): (p: Packet)
    requires Encodable(c)
    ensures PktLine.Encodable(p)
  {
    if c.unpackStatus != [] then Bytes("unpack " + c.unpackStatus + "\n")
    else if c.refUpdateStatus != [] then
      if c.refUpdateFailMessage == [] then Bytes(c.refUpdateStatus + " " + c.refName + "\n")
      else Bytes(c.refUpdateStatus + " " + c.refName + " " + c.refUpdateFailMessage + "\n")
    else Flush
  }

  /** `ReceiveResponseChunk.EncodeToPktLine`. */
  function EncodeToPktLine(c: ReceiveResponseChunk): (r: seq<byte>)
    requires Encodable(c)
    ensures c.unpackStatus != [] ==> |r| > 4 && r[4..] == "unpack " + c.unpackStatus + "\n"
    ensures c.unpackStatus == [] && c.refUpdateStatus != [] ==>
      |r| > 4 && r[4..] == c.refUpdateStatus + " " + c.refName
                + (if c.refUpdateFailMessage == [] then [] else " " + c.refUpdateFailMessage) + "\n"
    ensures c.unpackStatus == [] && c.refUpdateStatus == [] ==> r == "0000"
  {
    PktLine.EncodeToPktLine(ToPacket(c))
  }

  // ---------------------------------------------------------------------------
  // The parser

  /**
   * One call of `Scan` past its guard, from state `st` on the scanner's
   * outcome `o`. A clean end of input is an error except before the first
   * line; the scanner's own error is reported as it is.
   */
  function Step(st: State, o: ScanOutcome): (r: Transition<State, ReceiveResponseChunk>)
    requires st != End
    ensures !r.Skip?
    ensures r.Emit? ==> o.Scanned? && GrammarNext(st, KindOf(r.chunk)) == Some(r.next)
    ensures r == Halt(None) <==> st == Begin && o == Stopped(None)
    ensures o == Stopped(None) && st == ScanResult ==> r == Halt(Some(SyntaxError(EarlyEOF)))
    ensures o.Stopped? && o.err.Some? ==> r == Halt(o.err)
    ensures st == Begin && o.Scanned? && !o.packet.Bytes? ==> r == Halt(Some(SyntaxError(UnexpectedPacket)))
    ensures st == ScanResult && o == Scanned(Flush) ==> r == Emit(End, EndOfResponseChunk)
    ensures st == ScanResult && o.Scanned? && !o.packet.Bytes? && o.packet != Flush ==>
      r == Halt(Some(SyntaxError(UnexpectedPacket)))
  {
    match o
    case Stopped(e) =>
      if e.None? && st != Begin then Halt(Some(SyntaxError(EarlyEOF))) else Halt(e)
    case Scanned(p) =>
      if st == Begin then
        if !p.Bytes? then Halt(Some(SyntaxError(UnexpectedPacket)))
        else
          var s := TrimSuffix(p.content, Newline);
          if !HasPrefix(s, "unpack ") then Halt(Some(SyntaxError(UnexpectedPacket)))
          else
            SplitNAfterWord(s, "unpack", Space, 2);
            Emit(ScanResult, UnpackChunk(SplitN(s, Space, 2)[1]))
      else
        match p
        case Flush => Emit(End, EndOfResponseChunk)
        case Bytes(line) => RefUpdate(line)
        case _ => Halt(Some(SyntaxError(UnexpectedPacket)))
  }

  /** A data line in ScanResult: an "ok" or "ng" reference update, or an error. */
  function RefUpdate(line: seq<byte>): (r: Transition<State, ReceiveResponseChunk>)
    ensures r.Emit? ==> r.next == ScanResult && KindOf(r.chunk) == RefUpdateLine
    ensures r.Halt? ==> r.err.Some?
    ensures !r.Skip?
  {
    var s := TrimSuffix(line, Newline);
    if HasPrefix(s, "ok ") then
      SplitNAfterWord(s, "ok", Space, 2);
      var ss := SplitN(s, Space, 2);
      Emit(ScanResult, RefUpdateChunk(ss[0], ss[1], []))
    else if HasPrefix(s, "ng ") then
      SplitNAfterWord(s, "ng", Space, 3);
      var ss := SplitN(s, Space, 3);
      if |ss| != 3 then Halt(Some(SyntaxError(CannotSplit)))
      else Emit(ScanResult, RefUpdateChunk(ss[0], ss[1], ss[2]))
    else Halt(Some(SyntaxError(UnexpectedPacket)))
  }

  /** `Scan` returns false at once after an error or at the end of the response. */
  predicate Stuck(f: ParserState<State, ReceiveResponseChunk>) {
    f.err.Some? || f.state == End
  }

  /** The fields after one call of `Scan` on outcome `o`, and what it returns. */
  function AfterScan(f: ParserState<State, ReceiveResponseChunk>, o: ScanOutcome): (ParserState<State, ReceiveResponseChunk>, bool) {
    if Stuck(f) then (f, false) else Apply(f, Step(f.state, o))
  }

  /** The chunks one call of `Scan` reports. */
  function Reported(f: ParserState<State, ReceiveResponseChunk>, o: ScanOutcome): seq<ReceiveResponseChunk> {
    if Stuck(f) then [] else Emitted(Step(f.state, o))
  }

  /** `Scan` called until it returns false: the chunks reported, the last state and the error. */
  datatype RunResult = RunResult(chunks: seq<ReceiveResponseChunk>, state: State, err: Option<Error>)

  /** The parser from state `st` fed the outcomes `os` in turn. */
  function Run(st: State, os: seq<ScanOutcome>): RunResult
    decreases |os|
  {
    if |os| == 0 || st == End then RunResult([], st, None)
    else
      match Step(st, os[0])
      case Emit(n, c) =>
        var r := Run(n, os[1..]);
        RunResult([c] + r.chunks, r.state, r.err)
      case Halt(e) => RunResult([], st, e)
      case Skip(_) => assert false; RunResult([], st, None)
  }

  /** `ReceiveResponse`: reads a receive-pack response from its packet scanner. */
  class ReceiveResponse {
    const scanner: PacketScanner
    var state: State
    var err: Option<Error>
    var curr: Option<ReceiveResponseChunk>
    /** The chunks `Scan` has reported so far. */
    ghost var chunks: seq<ReceiveResponseChunk>

    ghost predicate Valid()
      reads this, scanner
    {
      scanner.Valid() && Walk(Begin, chunks) == Some(state)
    }

    ghost function Snapshot(): ParserState<State, ReceiveResponseChunk>
      reads this
    {
      ParserState(state, err, curr)
    }

    /** `NewReceiveResponse`. */
    constructor (input: seq<byte>)
      ensures Valid() && fresh(scanner) && scanner.input == input
      ensures scanner.State() == ScannerState(0, None, None, false)
      ensures Snapshot() == ParserState(Begin, None, None) && chunks == []
    {
      scanner := new PacketScanner(input);
      state := Begin;
      err := None;
      curr := None;
      chunks := [];
    }

    /** `Err`: the first error other than the clean end of the input. */
    function Err(): Option<Error>
      reads this
    {
      err
    }

    /** `Chunk`: the chunk of the last successful `Scan`. */
    function Chunk(): Option<ReceiveResponseChunk>
      reads this
    {
      curr
    }

    /** `Scan`: read the next chunk; false once the response ends or an error is set. */
    method Scan() returns (ok: bool)
      requires Valid()
      modifies this, scanner
      ensures Valid()
      ensures (Snapshot(), ok) == AfterScan(old(Snapshot()), old(scanner.Upcoming()))
      ensures chunks == old(chunks) + Reported(old(Snapshot()), old(scanner.Upcoming()))
      ensures scanner.State() == if Stuck(old(Snapshot())) then old(scanner.State())
                                 else Advance(scanner.input, old(scanner.State()))
    {
      if err.Some? || state == End {
        return false;
      }
      ghost var o := scanner.Upcoming();
      var more := scanner.Scan();
      if !more {
        err := scanner.Err();
        if err.None? && state != Begin {
          err := Some(SyntaxError(EarlyEOF));
        }
        return false;
      }
      var pkt := scanner.Current().value;
      assert o == Scanned(pkt);
      ok := ScanPacket(pkt);
    }

    /** The body of `Scan` once the scanner has produced `pkt`: the switch on the state. */
    method ScanPacket(pkt: Packet) returns (ok: bool)
      requires err.None? && state != End && Walk(Begin, chunks) == Some(state)
      modifies this
      ensures Walk(Begin, chunks) == Some(state)
      ensures (Snapshot(), ok) == Apply(old(Snapshot()), Step(old(state), Scanned(pkt)))
      ensures chunks == old(chunks) + Emitted(Step(old(state), Scanned(pkt)))
    {
      ghost var t := Step(state, Scanned(pkt));
      if t.Emit? {
        WalkSnoc(Begin, chunks, t.chunk);
      }
      if state == Begin {
        ok := ScanUnpack(pkt);
      } else {
        ok := ScanRefUpdate(pkt);
      }
      if t.Emit? {
        assert Emitted(t) == [t.chunk];
        assert state == t.next && chunks == old(chunks) + [t.chunk];
        assert Walk(Begin, chunks) == Some(t.next);
      } else {
        assert state == old(state) && chunks == old(chunks);
      }
    }

    /** The Begin case: the first line must be the unpack status. */
    method ScanUnpack(pkt: Packet) returns (ok: bool)
      requires err.None? && state == Begin
      modifies this
      ensures (Snapshot(), ok) == Apply(old(Snapshot()), Step(Begin, Scanned(pkt)))
      ensures chunks == old(chunks) + Emitted(Step(Begin, Scanned(pkt)))
    {
      if !pkt.Bytes? {
        err := Some(SyntaxError(UnexpectedPacket));
        return false;
      }
      var s := TrimSuffix(pkt.content, Newline);
      if !HasPrefix(s, "unpack ") {
        err := Some(SyntaxError(UnexpectedPacket));
        return false;
      }
      SplitNAfterWord(s, "unpack", Space, 2);
      state := ScanResult;
      curr := Some(UnpackChunk(SplitN(s, Space, 2)[1]));
      chunks := chunks + [curr.value];
      return true;
    }

    /** The ScanResult case: reference updates until the flush. */
    method ScanRefUpdate(pkt: Packet) returns (ok: bool)
      requires err.None? && state == ScanResult
      modifies this
      ensures (Snapshot(), ok) == Apply(old(Snapshot()), Step(ScanResult, Scanned(pkt)))
      ensures chunks == old(chunks) + Emitted(Step(ScanResult, Scanned(pkt)))
    {
      match pkt
      case Flush =>
        state := End;
        curr := Some(EndOfResponseChunk);
        chunks := chunks + [curr.value];
        return true;
      case Bytes(line) =>
        ok := ScanRefUpdateLine(line);
      case _ =>
        err := Some(SyntaxError(UnexpectedPacket));
        return false;
    }

    /** A data line in ScanResult: an "ok" or "ng" reference update. */
    method ScanRefUpdateLine(line: seq<byte>) returns (ok: bool)
      requires err.None? && state == ScanResult
      modifies this
      ensures (Snapshot(), ok) == Apply(old(Snapshot()), RefUpdate(line))
      ensures chunks == old(chunks) + Emitted(RefUpdate(line))
    {
      var s := TrimSuffix(line, Newline);
      if HasPrefix(s, "ok ") {
        assert s[2] == Space by { assert s[..3][2] == s[2]; }
        var ss := SplitN(s, Space, 2);
        curr := Some(RefUpdateChunk(ss[0], ss[1], []));
        chunks := chunks + [curr.value];
        return true;
      }
      if HasPrefix(s, "ng ") {
        var ss := SplitN(s, Space, 3);
        if |ss| != 3 {
          err := Some(SyntaxError(CannotSplit));
          return false;
        }
        curr := Some(RefUpdateChunk(ss[0], ss[1], ss[2]));
        chunks := chunks + [curr.value];
        return true;
      }
      err := Some(SyntaxError(UnexpectedPacket));
      return false;
    }
  }

  // ---------------------------------------------------------------------------
  // Properties

  /** Reading one more chunk moves the grammar automaton by that chunk's kind. */
  lemma {:induction false} WalkSnoc(q: State, cs: seq<ReceiveResponseChunk>, c: ReceiveResponseChunk)
    requires Walk(q, cs).Some?
    ensures Walk(q, cs + [c]) == GrammarNext(Walk(q, cs).value, KindOf(c))
    decreases |cs|
  {
    if |cs| == 0 {
      assert cs + [c] == [c];
    } else {
      assert (cs + [c])[1..] == cs[1..] + [c];
      WalkSnoc(GrammarNext(q, KindOf(cs[0])).value, cs[1..], c);
    }
  }

  /**
   * The first line: after one trailing newline is removed it must start with
   * "unpack ", and the status is everything after that first space.
   */
  lemma ScanUnpackLine(line: seq<byte>)
    ensures var s := TrimSuffix(line, Newline);
            Step(Begin, Scanned(Bytes(line)))
            == if HasPrefix(s, "unpack ") then Emit(ScanResult, UnpackChunk(s[7..]))
               else Halt(Some(SyntaxError(UnexpectedPacket)))
  {
    var s := TrimSuffix(line, Newline);
    if HasPrefix(s, "unpack ") {
      SplitNAfterWord(s, "unpack", Space, 2);
    }
  }

  /** An "ok" line splits into the word and everything after the first space. */
  lemma SplitOk(s: seq<byte>)
    requires HasPrefix(s, "ok ")
    ensures SplitN(s, Space, 2) == ["ok", s[3..]]
  {
    assert "ok" + [Space] == "ok ";
    SplitNAfterWord(s, "ok", Space, 2);
  }

  /** A separator-free word, a space and a remainder split into the word and the remainder. */
  lemma SplitWords(w: seq<byte>, rest: seq<byte>)
    requires Space !in w
    ensures SplitN(w + [Space] + rest, Space, 2) == [w, rest]
  {
    var s := w + [Space] + rest;
    assert s[..|w| + 1] == w + [Space];
    SplitNAfterWord(s, w, Space, 2);
    assert s[|w| + 1..] == rest;
  }

  /** An "ng" line splits into the word and at most two more pieces from the rest. */
  lemma SplitNg(s: seq<byte>)
    requires HasPrefix(s, "ng ")
    ensures SplitN(s, Space, 3) == ["ng"] + SplitN(s[3..], Space, 2)
  {
    assert "ng" + [Space] == "ng ";
    SplitNAfterWord(s, "ng", Space, 3);
  }

  /** A text without a space does not split. */
  lemma SplitNoSpace(t: seq<byte>)
    requires Space !in t
    ensures SplitN(t, Space, 2) == [t]
  {
  }

  /** Splitting in two cuts at the first space. */
  lemma SplitAtSpace(t: seq<byte>)
    requires Space in t
    ensures var i := IndexOf(t, Space).value; SplitN(t, Space, 2) == [t[..i], t[i + 1..]]
  {
    var i := IndexOf(t, Space).value;
    assert t == t[..i] + [Space] + t[i + 1..];
    SplitWords(t[..i], t[i + 1..]);
  }

  /** The "ng" line the encoder writes for a name without a space splits back into the word, the name and the message. */
  lemma SplitNgWords(name: seq<byte>, msg: seq<byte>)
    requires Space !in name
    ensures SplitN("ng " + name + [Space] + msg, Space, 3) == ["ng", name, msg]
  {
    var s := "ng " + name + [Space] + msg;
    assert s[..3] == "ng " && s[3..] == name + [Space] + msg;
    SplitNg(s);
    SplitWords(name, msg);
  }

  /**
   * A reference-update line: "ok <ref>" keeps everything after the first
   * space as the name; "ng <ref> <message>" splits at the first two spaces
   * and is an error when there is no second one; anything else is an error.
   */
  lemma ScanResultLine(line: seq<byte>)
    ensures var s := TrimSuffix(line, Newline);
            var r := Step(ScanResult, Scanned(Bytes(line)));
            && (HasPrefix(s, "ok ") ==> r == Emit(ScanResult, RefUpdateChunk("ok", s[3..], [])))
            && (HasPrefix(s, "ng ") && Space !in s[3..] ==> r == Halt(Some(SyntaxError(CannotSplit))))
            && (HasPrefix(s, "ng ") && Space in s[3..] ==>
                 var i := IndexOf(s[3..], Space).value;
                 r == Emit(ScanResult, RefUpdateChunk("ng", s[3..][..i], s[3..][i + 1..])))
            && (!HasPrefix(s, "ok ") && !HasPrefix(s, "ng ") ==> r == Halt(Some(SyntaxError(UnexpectedPacket))))
  {
    var s := TrimSuffix(line, Newline);
    assert Step(ScanResult, Scanned(Bytes(line))) == RefUpdate(line);
    if HasPrefix(s, "ok ") {
      SplitOk(s);
    } else if HasPrefix(s, "ng ") {
      SplitNg(s);
      if Space in s[3..] {
        SplitAtSpace(s[3..]);
      } else {
        SplitNoSpace(s[3..]);
      }
    }
  }

  /** The chunks the parser emits, in the shape the encoder writes back as the same line. */
  predicate WellFormed(c: ReceiveResponseChunk) {
    match KindOf(c)
    case UnpackLine => c == UnpackChunk(c.unpackStatus) && c.unpackStatus != []
    case RefUpdateLine =>
      c == RefUpdateChunk("ok", c.refName, [])
      || (c == RefUpdateChunk("ng", c.refName, c.refUpdateFailMessage)
          && Space !in c.refName && c.refUpdateFailMessage != [])
    case EndOfResponse => c == EndOfResponseChunk
  }

  /**
   * Every chunk the parser emits is well formed, except for the two lines
   * whose encoding reads back differently: "unpack " with an empty status
   * (which the encoder refuses) and "ng <ref> " with an empty message
   * (which the encoder writes as "ng <ref>", a line the parser rejects).
   */
  lemma EmittedWellFormed(st: State, p: Packet)
    requires st != End && Step(st, Scanned(p)).Emit?
    ensures var c := Step(st, Scanned(p)).chunk;
            WellFormed(c)
            || c == UnpackChunk([])
            || (c == RefUpdateChunk("ng", c.refName, []) && Space !in c.refName)
  {
    if st == Begin {
      ScanUnpackLine(p.content);
    } else if p.Bytes? {
      assert Step(st, Scanned(p)) == RefUpdate(p.content);
      RefUpdateWellFormed(p.content);
    }
  }

  /** The reference updates the parser emits are well formed, or an "ng" line with an empty message. */
  lemma RefUpdateWellFormed(line: seq<byte>)
    requires RefUpdate(line).Emit?
    ensures var c := RefUpdate(line).chunk;
            WellFormed(c) || (c == RefUpdateChunk("ng", c.refName, []) && Space !in c.refName)
  {
    var s := TrimSuffix(line, Newline);
    if HasPrefix(s, "ok ") {
      SplitOk(s);
    } else {
      SplitNg(s);
      var t := s[3..];
      if Space in t {
        SplitAtSpace(t);
        var i := IndexOf(t, Space).value;
        assert Space !in t[..i];
      } else {
        SplitNoSpace(t);
      }
    }
  }

  /** A well-formed chunk is written as a packet the scanner reads back as itself. */
  lemma EncodedFramed(c: ReceiveResponseChunk)
    requires WellFormed(c) && Encodable(c)
    ensures Framed(ToPacket(c))
  {
    var p := ToPacket(c);
    if p.Bytes? {
      assert p.content[0] == (p.content[..4])[0];
    }
  }

  /** An encoded "unpack" line is read back as the same status in Begin. */
  lemma ParseEncodedUnpack(status: seq<byte>)
    requires status != [] && Encodable(UnpackChunk(status))
    ensures Step(Begin, Scanned(ToPacket(UnpackChunk(status)))) == Emit(ScanResult, UnpackChunk(status))
  {
    var s := "unpack " + status;
    assert ToPacket(UnpackChunk(status)).content == s + Newline;
    TrimNewline(s);
    ScanUnpackLine(s + Newline);
    assert s[7..] == status;
  }

  /** An encoded "ok" line is read back as the same update in ScanResult. */
  lemma ParseEncodedOk(name: seq<byte>)
    requires Encodable(RefUpdateChunk("ok", name, []))
    ensures Step(ScanResult, Scanned(ToPacket(RefUpdateChunk("ok", name, []))))
            == Emit(ScanResult, RefUpdateChunk("ok", name, []))
  {
    var s := "ok" + " " + name;
    assert ToPacket(RefUpdateChunk("ok", name, [])).content == s + Newline;
    TrimNewline(s);
    ScanResultLine(s + Newline);
    assert s[..3] == "ok ";
    assert s[3..] == name;
  }

  /** An encoded "ng" line whose name has no space and whose message is not empty is read back as the same update. */
  lemma ParseEncodedNg(name: seq<byte>, msg: seq<byte>)
    requires Space !in name && msg != [] && Encodable(RefUpdateChunk("ng", name, msg))
    ensures Step(ScanResult, Scanned(ToPacket(RefUpdateChunk("ng", name, msg))))
            == Emit(ScanResult, RefUpdateChunk("ng", name, msg))
  {
    var s := "ng " + name + [Space] + msg;
    assert ToPacket(RefUpdateChunk("ng", name, msg)) == Bytes(s + Newline);
    TrimNewline(s);
    assert !HasPrefix(s, "ok ") && HasPrefix(s, "ng ") by {
      assert s[..3] == "ng ";
    }
    SplitNgWords(name, msg);
    assert RefUpdate(s + Newline) == Emit(ScanResult, RefUpdateChunk("ng", name, msg));
  }

  /** An encoded well-formed chunk is read back as itself, from any state where the grammar allows it. */
  lemma ParseEncoded(st: State, c: ReceiveResponseChunk)
    requires st != End && WellFormed(c) && Encodable(c) && GrammarNext(st, KindOf(c)).Some?
    ensures Framed(ToPacket(c))
    ensures Step(st, Scanned(ToPacket(c))) == Emit(GrammarNext(st, KindOf(c)).value, c)
  {
    EncodedFramed(c);
    match KindOf(c)
    case UnpackLine => ParseEncodedUnpack(c.unpackStatus);
    case RefUpdateLine =>
      if c.refUpdateStatus == "ok" {
        ParseEncodedOk(c.refName);
      } else {
        ParseEncodedNg(c.refName, c.refUpdateFailMessage);
      }
    case EndOfResponse =>
  }

  /** The chunks `Run` reports follow the grammar, and the automaton ends in the parser's last state. */
  lemma {:induction false} RunFollowsGrammar(st: State, os: seq<ScanOutcome>)
    ensures Walk(st, Run(st, os).chunks) == Some(Run(st, os).state)
    decreases |os|
  {
    if |os| > 0 && st != End {
      match Step(st, os[0])
      case Emit(n, c) =>
        RunFollowsGrammar(n, os[1..]);
        var r := Run(n, os[1..]);
        assert ([c] + r.chunks)[1..] == r.chunks;
      case Halt(_) =>
    }
  }

  /** The packets `EncodeToPktLine` writes for `cs`, one per chunk. */
  function ToPackets(cs: seq<ReceiveResponseChunk>): (ps: seq<Packet>)
    requires forall c | c in cs :: Encodable(c)
    ensures |ps| == |cs| && forall i | 0 <= i < |cs| :: ps[i] == ToPacket(cs[i])
  {
    if |cs| == 0 then [] else [ToPacket(cs[0])] + ToPackets(cs[1..])
  }

  /** A complete response: well-formed, encodable chunks the grammar takes from Begin to End. */
  predicate Complete(cs: seq<ReceiveResponseChunk>) {
    Walk(Begin, cs) == Some(End) && forall c | c in cs :: WellFormed(c) && Encodable(c)
  }

  /** A run whose first outcome emits a chunk reports it ahead of the rest of the run. */
  lemma RunCons(st: State, o: ScanOutcome, os: seq<ScanOutcome>, n: State, c: ReceiveResponseChunk)
    requires st != End && Step(st, o) == Emit(n, c)
    ensures Run(st, [o] + os) == RunResult([c] + Run(n, os).chunks, Run(n, os).state, Run(n, os).err)
  {
    assert ([o] + os)[0] == o && ([o] + os)[1..] == os;
  }

  /** The packets `ps` are read from `st` as exactly the chunks `cs`, the last of them taking the parser to End. */
  ghost predicate ReadsBack(st: State, cs: seq<ReceiveResponseChunk>, ps: seq<Packet>)
    decreases |cs|
  {
    if |cs| == 0 then st == End && ps == []
    else
      && |ps| > 0 && st != End
      && var t := Step(st, Scanned(ps[0]));
         t.Emit? && t.chunk == cs[0] && ReadsBack(t.next, cs[1..], ps[1..])
  }

  /** Packets read back as chunks are reported as those chunks by `Run`, whatever follows them. */
  lemma {:induction false} RunOfReadBack(st: State, cs: seq<ReceiveResponseChunk>, ps: seq<Packet>, os: seq<ScanOutcome>)
    requires ReadsBack(st, cs, ps)
    requires |ps| <= |os| && forall i | 0 <= i < |ps| :: os[i] == Scanned(ps[i])
    ensures Run(st, os) == RunResult(cs, End, None)
    decreases |cs|
  {
    if |cs| > 0 {
      var t := Step(st, Scanned(ps[0]));
      assert os[0] == Scanned(ps[0]);
      RunCons(st, os[0], os[1..], t.next, t.chunk);
      assert [os[0]] + os[1..] == os;
      RunOfReadBack(t.next, cs[1..], ps[1..], os[1..]);
      assert [cs[0]] + cs[1..] == cs;
    }
  }

  /** The packets of well-formed chunks that finish the response from `st` are read back as those chunks. */
  lemma {:induction false} EncodedReadsBack(st: State, cs: seq<ReceiveResponseChunk>)
    requires Walk(st, cs) == Some(End) && forall c | c in cs :: WellFormed(c) && Encodable(c)
    ensures ReadsBack(st, cs, ToPackets(cs))
    decreases |cs|
  {
    if |cs| > 0 {
      assert cs[0] in cs;
      assert st != End;
      ParseEncoded(st, cs[0]);
      assert forall x | x in cs[1..] :: x in cs;
      EncodedReadsBack(GrammarNext(st, KindOf(cs[0])).value, cs[1..]);
      assert ToPackets(cs)[1..] == ToPackets(cs[1..]);
    }
  }

  /** The packets of chunks that finish the response from `st` are parsed back into those chunks, whatever follows. */
  lemma RunOfPackets(st: State, cs: seq<ReceiveResponseChunk>, more: seq<Packet>, e: Option<Error>)
    requires Walk(st, cs) == Some(End) && forall c | c in cs :: WellFormed(c) && Encodable(c)
    ensures Run(st, Outcomes(ToPackets(cs) + more, e)) == RunResult(cs, End, None)
  {
    var ps := ToPackets(cs);
    EncodedReadsBack(st, cs);
    forall i | 0 <= i < |ps| ensures Outcomes(ps + more, e)[i] == Scanned(ps[i]) {
      assert (ps + more)[i] == ps[i];
    }
    RunOfReadBack(st, cs, ps, Outcomes(ps + more, e));
  }

  /**
   * A complete response, encoded and followed by anything, is read back as
   * the same chunks, ending in End with no error.
   */
  lemma ParseEncodedResponse(cs: seq<ReceiveResponseChunk>, rest: seq<byte>)
    requires Complete(cs)
    ensures forall p | p in ToPackets(cs) :: PktLine.Encodable(p) && Framed(p)
    ensures var (ps, e) := Packets(EncodeAll(ToPackets(cs)) + rest, false);
            Run(Begin, Outcomes(ps, e)) == RunResult(cs, End, None)
  {
    var ps := ToPackets(cs);
    forall p | p in ps ensures PktLine.Encodable(p) && Framed(p) {
      var i :| 0 <= i < |ps| && ps[i] == p;
      assert cs[i] in cs;
      EncodedFramed(cs[i]);
    }
    PacketsOfEncoding(ps, rest);
    RunOfPackets(Begin, cs, Packets(rest, false).0, Packets(rest, false).1);
  }
}
