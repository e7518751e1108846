/**
 * The debugger stub's command loop: each received body is matched against
 * a fixed list of command prefixes, the first match decides the call made on
 * the target and the reply, and the reply goes out as `+`, the frame, `+`.
 *
 * The target is seen through the answers of its gdb_target_if operations;
 * what those calls do to the target's own state belongs to the engine.
 */
module GdbServer {
  import opened VmBase
  import opened GdbPacket

  // ---- Hex numbers as the stream formatting writes and strtol reads them ----

  /** 16^k */
  function Pow16(k: nat): (p: nat)
    ensures p >= 1
  {
    if k == 0 then 1 else 16 * Pow16(k - 1)
  }

  predicate IsHexDigit(c: Byte)
  {
    HexValue(c).Some?
  }

  /** Every byte is a hex digit. */
  predicate AllHex(s: seq<Byte>)
  {
    forall i | 0 <= i < |s| :: IsHexDigit(s[i])
  }

  /** No byte needs escaping in a frame. */
  predicate Plain(s: seq<Byte>)
  {
    forall i | 0 <= i < |s| :: !Special(s[i])
  }

  /** The value of a digit; 0 for a byte that is none. */
  function DigitValue(c: Byte): (v: nat)
    ensures v < 16
    ensures IsHexDigit(c) ==> Some(v) == HexValue(c)
  {
    if IsHexDigit(c) then HexValue(c).value else 0
  }

  /** The value of a string of hex digits, most significant first. */
  function HexNumber(ds: seq<Byte>): nat
  {
    if ds == [] then 0
    else HexNumber(ds[..|ds| - 1]) * 16 + DigitValue(ds[|ds| - 1])
  }

  /** How many hex digits the string starts with. */
  function DigitRun(s: seq<Byte>): (n: nat)
    ensures n <= |s| && AllHex(s[..n])
    ensures n < |s| ==> !IsHexDigit(s[n])
  {
    if s == [] || !IsHexDigit(s[0]) then 0
    else
      var n := 1 + DigitRun(s[1..]);
      assert s[..n] == [s[0]] + s[1..][..n - 1];
      n
  }

  /** strtol(s, 0, 16): the value of the leading hex digits, 0 when there are none. */
  function ParseHex(s: seq<Byte>): nat
  {
    HexNumber(s[..DigitRun(s)])
  }

  /** `std::hex << v`: the lower-case hex digits of v, no leading zeros ("0" for zero). */
  function HexString(v: nat): (r: seq<Byte>)
    ensures |r| >= 1 && AllHex(r) && Plain(r)
  {
    HexRoundTrip(v % 16);
    if v < 16 then [HexDigit(v)]
    else
      var front := HexString(v / 16);
      var r := front + [HexDigit(v % 16)];
      assert forall i | 0 <= i < |front| :: r[i] == front[i];
      r
  }

  /** Reading the digits back gives the number. */
  lemma {:induction false} HexStringValue(v: nat)
    ensures HexNumber(HexString(v)) == v
    decreases v
  {
    HexRoundTrip(v % 16);
    if v >= 16 {
      HexStringValue(v / 16);
      var r := HexString(v);
      assert r[..|r| - 1] == HexString(v / 16);
    }
  }

  /** A number takes at most k digits exactly when it is below 16^k. */
  lemma {:induction false} HexStringLength(v: nat, k: nat)
    requires k >= 1
    ensures |HexString(v)| <= k <==> v < Pow16(k)
    decreases v
  {
    if v >= 16 {
      assert |HexString(v)| == |HexString(v / 16)| + 1;
      if k == 1 {
        assert Pow16(1) == 16;
      } else {
        HexStringLength(v / 16, k - 1);
      }
    }
  }

  /** `std::setw(w) << std::setfill('0')`: left-padded with '0' to at least w bytes. */
  function Pad(s: seq<Byte>, w: nat): (r: seq<Byte>)
    ensures |r| == if |s| >= w then |s| else w
  {
    if |s| >= w then s else seq(w - |s|, _ => 0x30) + s
  }

  /** Leading zeros keep the digits plain and do not change the number. */
  lemma {:induction false} LeadingZeros(s: seq<Byte>, w: nat)
    ensures AllHex(s) ==> AllHex(Pad(s, w))
    ensures Plain(s) ==> Plain(Pad(s, w))
    ensures HexNumber(Pad(s, w)) == HexNumber(s)
    decreases |s|
  {
    var r := Pad(s, w);
    if |s| < w {
      var z := seq(w - |s|, _ => 0x30);
      assert r == z + s;
      assert forall i | 0 <= i < |r| :: r[i] == if i < |z| then 0x30 else s[i - |z|];
      if s == [] {
        ZerosValue(w);
        assert r == z;
      } else {
        var n := |s|;
        LeadingZeros(s[..n - 1], w - 1);
        assert r[..|r| - 1] == Pad(s[..n - 1], w - 1);
      }
    }
  }

  lemma {:induction false} ZerosValue(n: nat)
    ensures HexNumber(seq(n, _ => 0x30)) == 0
    decreases n
  {
    if n > 0 {
      ZerosValue(n - 1);
      assert seq(n, _ => 0x30)[..n - 1] == seq(n - 1, _ => 0x30);
    }
  }

  /** A value written with `setw(w)` reads back, and takes exactly w digits when it fits in them. */
  lemma PaddedHex(v: nat, w: nat)
    ensures AllHex(Pad(HexString(v), w)) && Plain(Pad(HexString(v), w))
    ensures HexNumber(Pad(HexString(v), w)) == v
    ensures w >= 1 && v < Pow16(w) ==> |Pad(HexString(v), w)| == w
  {
    HexStringValue(v);
    LeadingZeros(HexString(v), w);
    if w >= 1 {
      HexStringLength(v, w);
    }
  }

  // ---- Commands ----

  /** `c_str() + 1`: the field without its command letter. */
  function Drop1(s: seq<Byte>): (r: seq<Byte>)
    ensures s != [] ==> [s[0]] + r == s
  {
    if s == [] then [] else s[1..]
  }

  /** The commands the stub answers, in the order it tries them. */
  datatype Command =
    | Supported                   // qSupported
    | CurrentThread               // qC
    | Offsets                     // qOffsets
    | SetThreadC                  // Hc
    | SetThreadG                  // Hg
    | HaltReason                  // ?
    | Continue                    // c
    | Step                        // s
    | ReadMem(addr: nat, len: nat)                // m addr,len
    | SetBreak(insert: bool, id: nat, addr: nat)     // Z/z type,addr,kind
    | ReadRegs                    // g

  /**
   * The first prefix the body starts with; None where the stub aborts: no
   * prefix matches, or an m packet has fewer than 2 fields or a Z/z packet
   * fewer than 3.
   */
  function Decode(msg: seq<Byte>): (r: Option<Command>)
    ensures msg == [] ==> r == None
  {
    if Ascii("qSupported") <= msg then Some(Supported)
    else if Ascii("qC") <= msg then Some(CurrentThread)
    else if Ascii("qOffsets") <= msg then Some(Offsets)
    else if Ascii("Hc") <= msg then Some(SetThreadC)
    else if Ascii("Hg") <= msg then Some(SetThreadG)
    else if Ascii("?") <= msg then Some(HaltReason)
    else if Ascii("c") <= msg then Some(Continue)
    else if Ascii("s") <= msg then Some(Step)
    else if Ascii("m") <= msg then
      var toks := SplitSpec(msg);
      if |toks| < 2 then None
      else Some(ReadMem(ParseHex(Drop1(toks[0])), ParseHex(toks[1])))
    else if Ascii("Z") <= msg || Ascii("z") <= msg then
      var toks := SplitSpec(msg);
      if |toks| < 3 then None
      else Some(SetBreak(Ascii("Z") <= toks[0], ParseHex(Drop1(toks[0])), ParseHex(toks[1])))
    else if Ascii("g") <= msg then Some(ReadRegs)
    else None
  }

  /** The digit run stops where the digits stop. */
  lemma {:induction false} DigitRunOf(ds: seq<Byte>, rest: seq<Byte>)
    requires AllHex(ds) && (rest == [] || !IsHexDigit(rest[0]))
    ensures DigitRun(ds + rest) == |ds|
    decreases |ds|
  {
    if ds != [] {
      assert (ds + rest)[1..] == ds[1..] + rest;
      DigitRunOf(ds[1..], rest);
    } else {
      assert ds + rest == rest;
    }
  }

  /** strtol reads back what the stream formatting wrote, up to the first byte that is no digit. */
  lemma ParseHexString(v: nat, rest: seq<Byte>)
    requires rest == [] || !IsHexDigit(rest[0])
    ensures ParseHex(HexString(v) + rest) == v
  {
    DigitRunOf(HexString(v), rest);
    assert (HexString(v) + rest)[..|HexString(v)|] == HexString(v);
    HexStringValue(v);
  }

  lemma NoCommaInHex(ds: seq<Byte>)
    requires AllHex(ds)
    ensures forall j | 0 <= j < |ds| :: ds[j] != COMMA
  {
    assert forall j | 0 <= j < |ds| :: IsHexDigit(ds[j]);
  }

  /** A command letter followed by hex digits: the first token of a packet. */
  function Lead(letter: Byte, v: nat): (r: seq<Byte>)
    ensures |r| >= 2 && r[0] == letter
  {
    [letter] + HexString(v)
  }

  lemma LeadNoComma(letter: Byte, v: nat)
    requires letter != COMMA
    ensures forall j | 0 <= j < |Lead(letter, v)| :: Lead(letter, v)[j] != COMMA
    ensures Drop1(Lead(letter, v)) == HexString(v)
  {
    var r := Lead(letter, v);
    assert forall j | 1 <= j < |r| :: r[j] == HexString(v)[j - 1] && IsHexDigit(r[j]);
  }

  /** Two tokens with a comma between. */
  lemma Tokens2(f0: seq<Byte>, f1: seq<Byte>)
    requires forall j | 0 <= j < |f0| :: f0[j] != COMMA
    requires f1 != [] && forall j | 0 <= j < |f1| :: f1[j] != COMMA
    ensures SplitSpec(f0 + [COMMA] + f1) == [f0, f1]
  {
    var msg := f0 + [COMMA] + f1;
    assert msg[|msg| - 1] == f1[|f1| - 1];
    FieldsConcat(f0, f1);
    OneField(f0);
    OneField(f1);
  }

  /** Three tokens with commas between. */
  lemma Tokens3(f0: seq<Byte>, f1: seq<Byte>, f2: seq<Byte>)
    requires forall j | 0 <= j < |f0| :: f0[j] != COMMA
    requires forall j | 0 <= j < |f1| :: f1[j] != COMMA
    requires f2 != [] && forall j | 0 <= j < |f2| :: f2[j] != COMMA
    ensures SplitSpec(f0 + [COMMA] + f1 + [COMMA] + f2) == [f0, f1, f2]
  {
    var head := f0 + [COMMA] + f1;
    var msg := head + [COMMA] + f2;
    assert msg[|msg| - 1] == f2[|f2| - 1];
    FieldsConcat(head, f2);
    FieldsConcat(f0, f1);
    OneField(f0);
    OneField(f1);
    OneField(f2);
  }

  /** A body that starts with a command word starts with its first letter. */
  lemma PrefixHead(lit: string, msg: seq<Byte>)
    requires lit != ""
    ensures Ascii(lit) <= msg ==> msg != [] && msg[0] == (lit[0] as int) % 256
  {
    if Ascii(lit) <= msg {
      assert Ascii(lit)[0] == msg[0];
    }
  }

  /** None of the commands tried before `m` matches a body that starts with another letter. */
  lemma EarlierMiss(msg: seq<Byte>)
    requires msg != [] && msg[0] !in {0x71, 0x48, 0x3F, 0x63, 0x73}
    ensures !(Ascii("qSupported") <= msg) && !(Ascii("qC") <= msg) && !(Ascii("qOffsets") <= msg)
    ensures !(Ascii("Hc") <= msg) && !(Ascii("Hg") <= msg) && !(Ascii("?") <= msg)
    ensures !(Ascii("c") <= msg) && !(Ascii("s") <= msg)
  {
    PrefixHead("qSupported", msg);
    PrefixHead("qC", msg);
    PrefixHead("qOffsets", msg);
    PrefixHead("Hc", msg);
    PrefixHead("Hg", msg);
    PrefixHead("?", msg);
    PrefixHead("c", msg);
    PrefixHead("s", msg);
  }

  /** `m`addr`,`len as the client writes it decodes to a read of len bytes at addr. */
  lemma DecodeReadMem(addr: nat, len: nat)
    ensures Decode(Lead(0x6D, addr) + [COMMA] + HexString(len)) == Some(ReadMem(addr, len))
  {
    var msg := Lead(0x6D, addr) + [COMMA] + HexString(len);
    LeadNoComma(0x6D, addr);
    NoCommaInHex(HexString(len));
    Tokens2(Lead(0x6D, addr), HexString(len));
    ParseHexString(addr, []);
    ParseHexString(len, []);
    assert HexString(addr) + [] == HexString(addr) && HexString(len) + [] == HexString(len);
    assert msg[0] == 0x6D;
    EarlierMiss(msg);
    assert Ascii("m") <= msg;
  }

  lemma BreakTokens(letter: Byte, id: nat, addr: nat, kind: nat)
    requires letter != COMMA
    ensures SplitSpec(Lead(letter, id) + [COMMA] + HexString(addr) + [COMMA] + HexString(kind))
      == [Lead(letter, id), HexString(addr), HexString(kind)]
  {
    LeadNoComma(letter, id);
    NoCommaInHex(HexString(addr));
    NoCommaInHex(HexString(kind));
    Tokens3(Lead(letter, id), HexString(addr), HexString(kind));
  }

  /** `Z`/`z`type`,`addr`,`kind decodes to setting or clearing a breakpoint at addr. */
  lemma DecodeBreakPoint(insert: bool, id: nat, addr: nat, kind: nat)
    ensures var letter := if insert then 0x5A else 0x7A;
      Decode(Lead(letter, id) + [COMMA] + HexString(addr) + [COMMA] + HexString(kind))
        == Some(SetBreak(insert, id, addr))
  {
    var letter: Byte := if insert then 0x5A else 0x7A;
    var msg := Lead(letter, id) + [COMMA] + HexString(addr) + [COMMA] + HexString(kind);
    BreakTokens(letter, id, addr, kind);
    LeadNoComma(letter, id);
    ParseHexString(id, []);
    ParseHexString(addr, []);
    assert HexString(id) + [] == HexString(id) && HexString(addr) + [] == HexString(addr);
    assert msg[0] == letter;
    EarlierMiss(msg);
    PrefixHead("m", msg);
    assert Ascii("Z") <= Lead(letter, id) <==> insert;
    assert Ascii("Z") <= msg || Ascii("z") <= msg;
  }

  /** The one-letter commands go by their first byte alone: `c addr` and `s addr` ignore the address. */
  lemma DecodeLetters(msg: seq<Byte>)
    requires msg != []
    ensures msg[0] == 0x3F ==> Decode(msg) == Some(HaltReason)
    ensures msg[0] == 0x63 ==> Decode(msg) == Some(Continue)
    ensures msg[0] == 0x73 ==> Decode(msg) == Some(Step)
    ensures msg[0] == 0x67 ==> Decode(msg) == Some(ReadRegs)
  {
    if msg[0] in {0x3F, 0x63, 0x73, 0x67} {
      assert [msg[0]] <= msg;
    }
  }

  /** The second byte of a message that starts with a literal of two or more characters. */
  lemma PrefixSecond(lit: string, msg: seq<Byte>)
    requires |lit| >= 2
    ensures Ascii(lit) <= msg ==> |msg| >= 2 && msg[1] == (lit[1] as int) % 256
  {
    if Ascii(lit) <= msg {
      assert Ascii(lit)[1] == msg[1];
    }
  }

  /**
   * The query and thread requests decode by their two-letter heads:
   * `qS`upported, `qC`, `qO`ffsets, `Hc` and `Hg` never shadow each other.
   */
  lemma DecodeQueries(msg: seq<Byte>)
    ensures Ascii("qSupported") <= msg ==> Decode(msg) == Some(Supported)
    ensures Ascii("qC") <= msg ==> Decode(msg) == Some(CurrentThread)
    ensures Ascii("qOffsets") <= msg ==> Decode(msg) == Some(Offsets)
    ensures Ascii("Hc") <= msg ==> Decode(msg) == Some(SetThreadC)
    ensures Ascii("Hg") <= msg ==> Decode(msg) == Some(SetThreadG)
  {
    PrefixHead("qSupported", msg);
    PrefixHead("qC", msg);
    PrefixHead("qOffsets", msg);
    PrefixHead("Hc", msg);
    PrefixSecond("qSupported", msg);
    PrefixSecond("qC", msg);
    PrefixSecond("qOffsets", msg);
    PrefixSecond("Hc", msg);
    PrefixSecond("Hg", msg);
  }

  /**
   * How a gdb_target_if call ends: it returns its answer, it aborts (a failed
   * jcpu_assert, an access outside memory), or it never returns (a run with
   * no breakpoint to stop it).
   */
  datatype Answer<T> = Returns(value: T) | Aborts | Hangs

  /** The answers the target gives to the gdb_target_if calls. */
  datatype Target = Target(
    runContinue: bool -> Answer<RunState>,
    readMemDbg: (nat, nat) -> Answer<nat>,
    setUnsetBreakPoint: (bool, nat) -> Answer<()>,
    regWidth: nat,
    regValues: seq<nat>)

  /** The target call a command makes. */
  datatype Call = NoCall | RunContinue(step: bool) | ReadMemDbg(addr: nat, len: nat)
    | SetUnsetBreakPoint(insert: bool, addr: nat) | GetRegs

  function CallOf(cmd: Command): (c: Call)
    ensures cmd.Continue? ==> c == RunContinue(false)
    ensures cmd.Step? ==> c == RunContinue(true)
    ensures cmd.ReadMem? ==> c == ReadMemDbg(cmd.addr, cmd.len)
    ensures cmd.SetBreak? ==> c == SetUnsetBreakPoint(cmd.insert, cmd.addr)
    ensures cmd.ReadRegs? ==> c == GetRegs
    ensures (cmd.Supported? || cmd.CurrentThread? || cmd.Offsets? || cmd.SetThreadC?
             || cmd.SetThreadG? || cmd.HaltReason?) ==> c == NoCall
  {
    match cmd
    case Continue => RunContinue(false)
    case Step => RunContinue(true)
    case ReadMem(addr, len) => ReadMemDbg(addr, len)
    case SetBreak(insert, _, addr) => SetUnsetBreakPoint(insert, addr)
    case ReadRegs => GetRegs
    case _ => NoCall
  }

  /** Whether a call returned, forgetting its answer. */
  function Ended<T>(a: Answer<T>): (r: Answer<()>)
    ensures r.Returns? <==> a.Returns?
    ensures r.Aborts? <==> a.Aborts?
  {
    match a
    case Returns(_) => Returns(())
    case Aborts => Aborts
    case Hangs => Hangs
  }

  /** How the target call of a command ends; a command that makes no call returns at once. */
  function CallEnd(cmd: Command, tgt: Target): (r: Answer<()>)
    ensures CallOf(cmd).NoCall? || CallOf(cmd).GetRegs? ==> r == Returns(())
  {
    match cmd
    case Continue => Ended(tgt.runContinue(false))
    case Step => Ended(tgt.runContinue(true))
    case ReadMem(addr, len) => Ended(tgt.readMemDbg(addr, len))
    case SetBreak(insert, _, addr) => tgt.setUnsetBreakPoint(insert, addr)
    case _ => Returns(())
  }

  /** The 'g' reply: every register in hex, each padded to regWidth / 4 digits, in order. */
  function RegsReply(values: seq<nat>, digits: nat): (r: seq<Byte>)
  {
    if values == [] then []
    else Pad(HexString(values[0]), digits) + RegsReply(values[1..], digits)
  }

  /** The reply body of a command whose target call returned, given the target's answers. */
  function ReplyBody(cmd: Command, tgt: Target): seq<Byte>
    requires CallEnd(cmd, tgt).Returns?
  {
    match cmd
    case Supported => Ascii("PacketSize=ff")
    case CurrentThread => Ascii("QC1")
    case Offsets => Ascii("Text=0;Data=0;Bss=0;")
    case SetThreadC => Ascii("OK")
    case SetThreadG => Ascii("OK")
    case HaltReason => Ascii("S05")
    case Continue => if tgt.runContinue(false).value == Break then Ascii("S05") else []
    case Step => Ascii("S05")
    case ReadMem(addr, len) => Pad(HexString(tgt.readMemDbg(addr, len).value), 2 * len)
    case SetBreak(_, _, _) => Ascii("OK")
    case ReadRegs => RegsReply(tgt.regValues, tgt.regWidth / 4)
  }

  /** What goes back on the wire for a reply body: `+`, the sender's frame, `+`. */
  function Exchange(body: seq<Byte>): seq<Byte>
  {
    [ACK] + FrameAsWritten(body) + [ACK]
  }

  /** A reply cut into slots of `digits` bytes, the last one possibly shorter. */
  function Slots(r: seq<Byte>, digits: nat): (slots: seq<seq<Byte>>)
    requires digits >= 1
    decreases |r|
  {
    if r == [] then []
    else if |r| <= digits then [r]
    else [r[..digits]] + Slots(r[digits..], digits)
  }

  /** Registers padded to `digits` bytes each, in order. */
  function PaddedRegs(values: seq<nat>, digits: nat): (r: seq<seq<Byte>>)
    ensures |r| == |values|
  {
    seq(|values|, k requires 0 <= k < |values| => Pad(HexString(values[k]), digits))
  }

  lemma MulStep(n: nat, d: nat)
    requires n >= 1
    ensures n * d == d + (n - 1) * d
  {
  }

  /** When every register fits its width, the 'g' reply takes exactly `digits` bytes per register. */
  lemma {:induction false} RegsReplyLength(values: seq<nat>, digits: nat)
    requires digits >= 1 && forall k | 0 <= k < |values| :: values[k] < Pow16(digits)
    ensures |RegsReply(values, digits)| == |values| * digits
    decreases |values|
  {
    if values != [] {
      TailFits(values, digits);
      RegsReplyLength(values[1..], digits);
      PaddedHex(values[0], digits);
      MulStep(|values|, digits);
    }
  }

  /** The registers after the first fit their width too. */
  lemma TailFits(values: seq<nat>, digits: nat)
    requires values != [] && forall k | 0 <= k < |values| :: values[k] < Pow16(digits)
    ensures forall k | 0 <= k < |values[1..]| :: values[1..][k] < Pow16(digits)
  {
    forall k | 0 <= k < |values[1..]|
      ensures values[1..][k] < Pow16(digits)
    {
      assert values[1..][k] == values[k + 1];
    }
  }
  /** ... and slot k of it is register k padded. */
  lemma {:induction false} RegsReplySlots(values: seq<nat>, digits: nat)
    requires digits >= 1 && forall k | 0 <= k < |values| :: values[k] < Pow16(digits)
    ensures Slots(RegsReply(values, digits), digits) == PaddedRegs(values, digits)
    decreases |values|
  {
    if values != [] {
      var tail := values[1..];
      TailFits(values, digits);
      RegsReplySlots(tail, digits);
      RegsReplyLength(tail, digits);
      PaddedHex(values[0], digits);
      var first := Pad(HexString(values[0]), digits);
      var r := RegsReply(values, digits);
      assert r == first + RegsReply(tail, digits);
      assert PaddedRegs(values, digits) == [first] + PaddedRegs(tail, digits);
      if tail == [] {
        assert r == first;
      } else {
        assert r[..digits] == first && r[digits..] == RegsReply(tail, digits);
      }
    }
  }

  /** A 'g' reply of registers that fit their width: slot k reads back as register k. */
  lemma RegsReplyValues(values: seq<nat>, digits: nat)
    requires digits >= 1 && forall k | 0 <= k < |values| :: values[k] < Pow16(digits)
    ensures |RegsReply(values, digits)| == |values| * digits
    ensures |Slots(RegsReply(values, digits), digits)| == |values|
    ensures forall k | 0 <= k < |values| ::
      AllHex(Slots(RegsReply(values, digits), digits)[k])
      && HexNumber(Slots(RegsReply(values, digits), digits)[k]) == values[k]
  {
    RegsReplyLength(values, digits);
    RegsReplySlots(values, digits);
    forall k | 0 <= k < |values|
      ensures AllHex(Pad(HexString(values[k]), digits)) && HexNumber(Pad(HexString(values[k]), digits)) == values[k]
    {
      PaddedHex(values[k], digits);
    }
  }

  /** An 'm' reply reads back as the value the target returned. */
  lemma MemReplyValue(addr: nat, len: nat, tgt: Target)
    requires tgt.readMemDbg(addr, len).Returns?
    ensures AllHex(ReplyBody(ReadMem(addr, len), tgt))
    ensures HexNumber(ReplyBody(ReadMem(addr, len), tgt)) == tgt.readMemDbg(addr, len).value
  {
    PaddedHex(tgt.readMemDbg(addr, len).value, 2 * len);
  }

  lemma PlainConcat(a: seq<Byte>, b: seq<Byte>)
    requires Plain(a) && Plain(b)
    ensures Plain(a + b)
  {
    assert forall i | 0 <= i < |a + b| :: (a + b)[i] == if i < |a| then a[i] else b[i - |a|];
  }

  lemma {:induction false} RegsPlain(values: seq<nat>, digits: nat)
    ensures Plain(RegsReply(values, digits))
    decreases |values|
  {
    if values != [] {
      RegsPlain(values[1..], digits);
      PaddedHex(values[0], digits);
      PlainConcat(Pad(HexString(values[0]), digits), RegsReply(values[1..], digits));
    }
  }

  /** A text without `#`, `$` or `}`. */
  predicate PlainText(s: string)
  {
    forall i | 0 <= i < |s| :: s[i] != '#' && s[i] != '$' && s[i] != '}' && s[i] < 128 as char
  }

  lemma AsciiPlain(s: string)
    requires PlainText(s)
    ensures Plain(Ascii(s))
  {
  }

  /** No reply needs escaping: no byte of any reply body is `#`, `$` or `}`. */
  lemma RepliesPlain(cmd: Command, tgt: Target)
    requires CallEnd(cmd, tgt).Returns?
    ensures Plain(ReplyBody(cmd, tgt))
  {
    match cmd
    case ReadMem(addr, len) =>
      PaddedHex(tgt.readMemDbg(addr, len).value, 2 * len);
    case ReadRegs =>
      RegsPlain(tgt.regValues, tgt.regWidth / 4);
    case Supported => AsciiPlain("PacketSize=ff");
    case CurrentThread => AsciiPlain("QC1");
    case Offsets => AsciiPlain("Text=0;Data=0;Bss=0;");
    case Continue =>
      AsciiPlain("S05");
    case _ =>
      AsciiPlain("OK");
      AsciiPlain("S05");
  }

  /** So the frames the stub sends are the same under either checksum rule. */
  lemma ReplyFramesAgree(cmd: Command, tgt: Target)
    requires CallEnd(cmd, tgt).Returns?
    ensures FrameAsWritten(ReplyBody(cmd, tgt)) == Frame(ReplyBody(cmd, tgt))
  {
    RepliesPlain(cmd, tgt);
    PlainBodySums(ReplyBody(cmd, tgt));
  }

  // ---- The session ----

  /**
   * How a session ends: the stub aborts, a target call never returns, or the
   * budget of messages runs out.
   */
  datatype SessionEnd = Aborted | Hung | OutOfMessages

  /** What a session sent, the target calls it made in order, and how it ended. */
  datatype Transcript = Transcript(sent: seq<Byte>, calls: seq<Call>, end: SessionEnd)

  /** A transcript after some bytes were sent and some calls made. */
  function After(sent: seq<Byte>, calls: seq<Call>, t: Transcript): (r: Transcript)
    ensures r.end == t.end && |r.sent| == |sent| + |t.sent| && |r.calls| == |calls| + |t.calls|
  {
    Transcript(sent + t.sent, calls + t.calls, t.end)
  }

  lemma AfterNothing(sent: seq<Byte>, calls: seq<Call>, end: SessionEnd)
    ensures After(sent, calls, Transcript([], [], end)) == Transcript(sent, calls, end)
  {
    assert sent + [] == sent && calls + [] == calls;
  }

  lemma AfterAfter(s1: seq<Byte>, c1: seq<Call>, s2: seq<Byte>, c2: seq<Call>, t: Transcript)
    ensures After(s1, c1, After(s2, c2, t)) == After(s1 + s2, c1 + c2, t)
  {
    assert s1 + (s2 + t.sent) == (s1 + s2) + t.sent;
    assert c1 + (c2 + t.calls) == (c1 + c2) + t.calls;
  }

  /** The call a command adds to the transcript: none for the ones that do not reach the target. */
  function CallsOf(cmd: Command): seq<Call>
  {
    if CallOf(cmd).NoCall? then [] else [CallOf(cmd)]
  }

  /**
   * One turn of the loop: the bytes sent back and the target calls made, or
   * the calls made before the session ended without a reply.
   */
  datatype Turn = Reply(sent: seq<Byte>, calls: seq<Call>) | Halt(calls: seq<Call>, end: SessionEnd)

  /**
   * One turn of the loop for a received body. A body that matches no command
   * fails the assertion; a target call that aborts or never returns ends the
   * session before anything is sent; otherwise the reply goes out.
   */
  function Respond(tgt: Target, msg: seq<Byte>): (r: Turn)
    ensures Decode(msg).None? ==> r == Halt([], Aborted)
    ensures Decode(msg).Some? ==> var cmd := Decode(msg).value;
      && r.calls == CallsOf(cmd)
      && (r.Reply? <==> CallEnd(cmd, tgt).Returns?)
      && (r.Reply? ==> r.sent == Exchange(ReplyBody(cmd, tgt)))
      && (CallEnd(cmd, tgt).Aborts? ==> r.end == Aborted)
      && (CallEnd(cmd, tgt).Hangs? ==> r.end == Hung)
  {
    match Decode(msg)
    case None => Halt([], Aborted)
    case Some(cmd) =>
      match CallEnd(cmd, tgt)
      case Returns(_) => Reply(Exchange(ReplyBody(cmd, tgt)), CallsOf(cmd))
      case Aborts => Halt(CallsOf(cmd), Aborted)
      case Hangs => Halt(CallsOf(cmd), Hung)
  }

  /** How a loop answers one received body. */
  type Responder = seq<Byte> -> Turn

  /** This stub's answers against a target. */
  function Stub(tgt: Target): Responder
  {
    msg => Respond(tgt, msg)
  }

  /**
   * The receive-answer loop from what is left of the stream: read a message,
   * answer it, go on; at most `fuel` messages.
   */
  function Session(respond: Responder, input: seq<Byte>, fuel: nat): Transcript
    decreases fuel
  {
    if fuel == 0 then Transcript([], [], OutOfMessages)
    else
      match Parse(input)
      case None => Transcript([], [], Aborted)
      case Some((m, rest)) =>
        match respond(m.msg)
        case Halt(calls, end) => Transcript([], calls, end)
        case Reply(reply, calls) => After(reply, calls, Session(respond, rest, fuel - 1))
  }

  /**
   * Once the stream is used up the next message is empty, and an empty
   * body matches no command: the session can only end by aborting.
   */
  lemma EndOfStreamAborts(tgt: Target, fuel: nat)
    requires fuel > 0
    ensures Session(Stub(tgt), [], fuel) == Transcript([], [], Aborted)
  {
    assert Parse([]) == Some((RcvMsg([], 0), []));
  }

  /**
   * One frame from the client makes at most one target call. When the call
   * returns, the reply is sent and the session goes on with the rest of the
   * input; when it aborts or never returns, the session ends there with
   * nothing sent.
   */
  lemma OneExchange(tgt: Target, body: seq<Byte>, rest: seq<Byte>, fuel: nat)
    requires fuel > 0 && Decode(body).Some?
    ensures var cmd := Decode(body).value;
      CallEnd(cmd, tgt).Returns? ==>
        Session(Stub(tgt), Frame(body) + rest, fuel)
          == After(Exchange(ReplyBody(cmd, tgt)), CallsOf(cmd), Session(Stub(tgt), rest, fuel - 1))
    ensures var cmd := Decode(body).value;
      CallEnd(cmd, tgt).Aborts? ==> Session(Stub(tgt), Frame(body) + rest, fuel) == Transcript([], CallsOf(cmd), Aborted)
    ensures var cmd := Decode(body).value;
      CallEnd(cmd, tgt).Hangs? ==> Session(Stub(tgt), Frame(body) + rest, fuel) == Transcript([], CallsOf(cmd), Hung)
  {
    FrameRoundTrip(body, rest);
  }

  /** The wait_and_run loop over the stream. */
  method Serve(respond: Responder, input: seq<Byte>, fuel: nat) returns (t: Transcript)
    ensures t == Session(respond, input, fuel)
  {
    var out: seq<Byte> := [];
    var calls: seq<Call> := [];
    var rest := input;
    var n: nat := fuel;
    assert [] + Session(respond, rest, n).sent == Session(respond, rest, n).sent;
    assert [] + Session(respond, rest, n).calls == Session(respond, rest, n).calls;
    while n > 0
      invariant Session(respond, input, fuel) == After(out, calls, Session(respond, rest, n))
      decreases n
    {
      var m := ReadMsg(rest);
      if m.None? {
        AfterNothing(out, calls, Aborted);
        return Transcript(out, calls, Aborted);
      }
      var r := respond(m.value.0.msg);
      if r.Halt? {
        assert out + [] == out;
        return Transcript(out, calls + r.calls, r.end);
      }
      AfterAfter(out, calls, r.sent, r.calls, Session(respond, m.value.1, n - 1));
      out := out + r.sent;
      calls := calls + r.calls;
      rest := m.value.1;
      n := n - 1;
    }
    AfterNothing(out, calls, OutOfMessages);
    return Transcript(out, calls, OutOfMessages);
  }
}
