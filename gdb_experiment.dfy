/**
 * The stand-alone debugger stub experiment: the same packet layer, a shorter
 * command list answered without a target (every register reads as zero), an
 * empty reply for anything else, and nothing sent back for an empty message.
 */
module GdbExperiment {
  import opened VmBase
  import opened GdbPacket
  import S = GdbServer

  /** The commands the experiment knows, in the order it tries them. */
  datatype Known = Supported | SetThreadC | HaltReason | CurrentThread | ReadRegs

  /** The first prefix the body starts with; None for any other body. */
  function Classify(msg: seq<Byte>): Option<Known>
  {
    if Ascii("qSupported") <= msg then Some(Supported)
    else if Ascii("Hc") <= msg then Some(SetThreadC)
    else if Ascii("?") <= msg then Some(HaltReason)
    else if Ascii("qC") <= msg then Some(CurrentThread)
    else if Ascii("g") <= msg then Some(ReadRegs)
    else None
  }

  /** n registers of eight zero digits each. */
  function ZeroRegs(n: nat): (r: seq<Byte>)
    ensures |r| == 8 * n
  {
    if n == 0 then [] else ZeroRegs(n - 1) + Ascii("00000000")
  }

  /** The reply body: fixed texts, 32 zero registers for `g`, empty for anything unknown. */
  function ReplyBody(msg: seq<Byte>): seq<Byte>
  {
    match Classify(msg)
    case Some(Supported) => Ascii("PacketSize=ff")
    case Some(SetThreadC) => Ascii("OK")
    case Some(HaltReason) => Ascii("S05")
    case Some(CurrentThread) => Ascii("QC1")
    case Some(ReadRegs) => ZeroRegs(32)
    case None => []
  }

  /** recv's answer: the reply wrapped in `+`, only for a non-empty message; it never aborts. */
  function Respond(msg: seq<Byte>): (r: S.Turn)
    ensures r.Reply? && r.calls == []
    ensures r.sent == [] <==> msg == []
  {
    S.Reply(if msg == [] then [] else S.Exchange(ReplyBody(msg)), [])
  }

  /**
   * No reply of the experiment needs escaping, so the frame it sends with
   * the sender's checksum is the frame the protocol defines.
   */
  lemma ReplyFramesAgree(msg: seq<Byte>)
    ensures S.Plain(ReplyBody(msg))
    ensures FrameAsWritten(ReplyBody(msg)) == Frame(ReplyBody(msg))
  {
    assert S.Plain(ReplyBody(msg)) by {
      match Classify(msg)
      case Some(Supported) => S.AsciiPlain("PacketSize=ff");
      case Some(SetThreadC) => S.AsciiPlain("OK");
      case Some(HaltReason) => S.AsciiPlain("S05");
      case Some(CurrentThread) => S.AsciiPlain("QC1");
      case Some(ReadRegs) =>
        ZeroRegsAreZeroRegisters(32);
        S.RegsPlain(seq(32, _ => 0), 8);
      case None =>
    }
    PlainBodySums(ReplyBody(msg));
  }

  /** The experiment as a responder for the receive-answer loop. */
  function Experiment(): S.Responder
  {
    msg => Respond(msg)
  }

  lemma {:induction false} ZeroRegsAreZeroRegisters(n: nat)
    ensures ZeroRegs(n) == S.RegsReply(seq(n, _ => 0), 8)
    decreases n
  {
    if n > 0 {
      ZeroRegsAreZeroRegisters(n - 1);
      var zs := seq(n, _ => 0);
      var fr := seq(n - 1, _ => 0);
      assert S.Pad(S.HexString(0), 8) == Ascii("00000000");
      RegsReplySnoc(fr, 0, 8);
      assert fr + [0] == zs;
    }
  }

  /** Appending a register appends its padded digits. */
  lemma {:induction false} RegsReplySnoc(values: seq<nat>, v: nat, digits: nat)
    ensures S.RegsReply(values + [v], digits) == S.RegsReply(values, digits) + S.Pad(S.HexString(v), digits)
    decreases |values|
  {
    if values == [] {
      assert S.RegsReply([v], digits) == S.Pad(S.HexString(v), digits) + S.RegsReply([], digits);
    } else {
      assert (values + [v])[1..] == values[1..] + [v];
      RegsReplySnoc(values[1..], v, digits);
    }
  }

  /**
   * The `g` reply is what the full stub sends for 32 registers of 32 bits
   * that all hold zero: 256 digits, and every eight of them read back as 0.
   */
  lemma RegsReadZero()
    ensures var r := ReplyBody(Ascii("g"));
      |r| == 256 && |S.Slots(r, 8)| == 32
      && forall k | 0 <= k < 32 :: S.HexNumber(S.Slots(r, 8)[k]) == 0
  {
    var g := Ascii("g");
    assert g[0] == 0x67;
    S.PrefixHead("qSupported", g);
    S.PrefixHead("Hc", g);
    S.PrefixHead("?", g);
    S.PrefixHead("qC", g);
    assert Classify(g) == Some(ReadRegs);
    ZeroRegsAreZeroRegisters(32);
    assert S.Pow16(8) == 0x1_0000_0000;
    S.RegsReplyValues(seq(32, _ => 0), 8);
  }

  /** An unknown non-empty body gets the empty reply `+$#00+`. */
  lemma UnknownGetsEmptyReply(msg: seq<Byte>)
    requires msg != [] && Classify(msg).None?
    ensures Respond(msg).sent == [ACK, DOLLAR, HASH, 0x30, 0x30, ACK]
  {
    assert ReplyBody(msg) == [];
    assert FrameAsWritten([]) == [DOLLAR, HASH, 0x30, 0x30] by {
      assert Escape([]) == [] && SubstSum([]) == 0;
      assert Digits(0) == [0x30, 0x30];
    }
    var reply: seq<Byte> := [ACK, DOLLAR, HASH, 0x30, 0x30, ACK];
    assert S.Exchange([]) == reply;
  }

  /** `Hg` is one such body: the experiment replies empty where the full stub replies OK. */
  lemma SetThreadGUnknown()
    ensures Classify(Ascii("Hg")).None?
    ensures S.Decode(Ascii("Hg")) == Some(S.SetThreadG)
  {
    var hg := Ascii("Hg");
    assert hg[0] == 0x48 && hg[1] == 0x67;
    S.PrefixHead("qSupported", hg);
    S.PrefixHead("?", hg);
    S.PrefixHead("qC", hg);
    S.PrefixHead("g", hg);
    assert !(Ascii("Hc") <= hg) by {
      assert Ascii("Hc")[1] == 0x63;
    }
  }

  /** A NACK ends a message with an empty body: nothing is sent back and the loop goes on. */
  lemma NackIsSilent(rest: seq<Byte>, fuel: nat)
    requires fuel > 0
    ensures S.Session(Experiment(), [NACK] + rest, fuel) == S.Session(Experiment(), rest, fuel - 1)
  {
    assert ([NACK] + rest)[1..] == rest && ([NACK] + rest)[0] == NACK;
    assert Receive(Finished, [], 0, rest) == Some((RcvMsg([], 0), rest));
    assert Parse([NACK] + rest) == Some((RcvMsg([], 0), rest));
    var t := S.Session(Experiment(), rest, fuel - 1);
    assert [] + t.sent == t.sent && [] + t.calls == t.calls;
  }

  /**
   * At the end of the stream every message is empty, so the experiment
   * sends nothing more and never stops; the full stub aborts there.
   */
  lemma {:induction false} EndOfStreamSpins(fuel: nat)
    ensures S.Session(Experiment(), [], fuel) == S.Transcript([], [], S.OutOfMessages)
    decreases fuel
  {
    if fuel > 0 {
      assert Parse([]) == Some((RcvMsg([], 0), []));
      EndOfStreamSpins(fuel - 1);
      S.AfterNothing([], [], S.OutOfMessages);
    }
  }
}
