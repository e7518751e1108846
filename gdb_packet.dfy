/**
 * The packet layer of the GDB remote serial protocol as the debugger stub
 * speaks it: a body is sent as `$` body `#` and two hex checksum digits,
 * with `#`, `$` and `}` escaped as `}` followed by the byte XOR 0x20; the
 * receiver is a small state machine over the byte stream; a received body
 * is queried by prefix and cut at commas.
 *
 * The stream is a sequence of bytes; running out of it is the end of the
 * stream. A byte the source rejects with abort() ends the parse with None.
 */
module GdbPacket {
  import opened VmBase

  type Byte = x: int | 0 <= x < 256

  const ESCAPE: Byte := 0x7D  // '}'
  const HASH: Byte := 0x23    // '#'
  const DOLLAR: Byte := 0x24  // '$'
  const ACK: Byte := 0x2B     // '+'
  const NACK: Byte := 0x2D    // '-'
  const COMMA: Byte := 0x2C   // ','

  /** The bytes of a C string literal (all of them ASCII). */
  function Ascii(s: string): (r: seq<Byte>)
    ensures |r| == |s|
  {
    seq(|s|, i requires 0 <= i < |s| => (s[i] as int) % 256)
  }

  /** b ^ 0x20. */
  function Flip(b: Byte): Byte
  {
    if b % 64 >= 32 then b - 32 else b + 32
  }

  /** Flip keeps bits 0..4 and 6..7 and inverts bit 5. */
  lemma FlipBits(b: Byte)
    ensures Flip(b) % 32 == b % 32 && Flip(b) / 64 == b / 64
    ensures (Flip(b) % 64 >= 32) != (b % 64 >= 32)
  {
  }

  lemma FlipFlip(b: Byte)
    ensures Flip(Flip(b)) == b
  {
  }

  /** The bytes the sender escapes. */
  predicate Special(b: Byte)
  {
    b == HASH || b == DOLLAR || b == ESCAPE
  }

  /** What add(m) sums into the checksum: the byte after substitution. */
  function Substituted(b: Byte): (r: Byte)
    ensures Special(b) ==> r == b - 32 && !Special(r)
    ensures !Special(b) ==> r == b
  {
    if Special(b) then Flip(b) else b
  }

  /** What add(m) appends: `}` and the flipped byte, or the byte itself. */
  function Encoded(b: Byte): (r: seq<Byte>)
    ensures Special(b) ==> r == [ESCAPE, Substituted(b)]
    ensures !Special(b) ==> r == [b]
  {
    if Special(b) then [ESCAPE, Flip(b)] else [b]
  }

  /** The bytes a body occupies on the wire. */
  function Escape(body: seq<Byte>): (r: seq<Byte>)
    ensures |r| >= |body|
  {
    if body == [] then [] else Escape(body[..|body| - 1]) + Encoded(body[|body| - 1])
  }

  /** One more byte: its encoding goes on the end, its substitute onto the sum. */
  lemma AppendOne(body: seq<Byte>, m: Byte)
    ensures Escape(body + [m]) == Escape(body) + Encoded(m)
    ensures SubstSum(body + [m]) == SubstSum(body) + Substituted(m)
  {
    assert (body + [m])[..|body|] == body;
  }

  lemma ModAdd(x: nat, b: nat)
    ensures (x % 256 + b) % 256 == (x + b) % 256
  {
  }

  lemma {:induction false} EscapeConcat(a: seq<Byte>, b: seq<Byte>)
    ensures Escape(a + b) == Escape(a) + Escape(b)
    decreases |b|
  {
    if b != [] {
      FrontOfConcat(a, b);
      EscapeConcat(a, b[..|b| - 1]);
    } else {
      assert a + b == a;
    }
  }

  /** Dropping the last byte of a + b drops the last byte of b. */
  lemma FrontOfConcat(a: seq<Byte>, b: seq<Byte>)
    requires b != []
    ensures (a + b)[..|a + b| - 1] == a + b[..|b| - 1] && (a + b)[|a + b| - 1] == b[|b| - 1]
  {
  }

  /** The escaped body is made of the encodings of its bytes, front first. */
  lemma EscapeCons(b: Byte, s: seq<Byte>)
    ensures Escape([b] + s) == Encoded(b) + Escape(s)
  {
    EscapeConcat([b], s);
    assert Escape([b]) == Escape([]) + Encoded(b);
  }

  /** The bytes of a sequence added up. */
  function Sum(s: seq<Byte>): nat
  {
    if s == [] then 0 else Sum(s[..|s| - 1]) + s[|s| - 1]
  }

  lemma {:induction false} SumConcat(a: seq<Byte>, b: seq<Byte>)
    ensures Sum(a + b) == Sum(a) + Sum(b)
    decreases |b|
  {
    if b != [] {
      FrontOfConcat(a, b);
      SumConcat(a, b[..|b| - 1]);
    } else {
      assert a + b == a;
    }
  }

  /** The substituted bytes of a body added up: what add() accumulates. */
  function SubstSum(body: seq<Byte>): nat
  {
    if body == [] then 0 else SubstSum(body[..|body| - 1]) + Substituted(body[|body| - 1])
  }

  /** How many bytes of a body are escaped. */
  function SpecialCount(body: seq<Byte>): (k: nat)
    ensures k <= |body|
  {
    if body == [] then 0 else SpecialCount(body[..|body| - 1]) + (if Special(body[|body| - 1]) then 1 else 0)
  }

  /** Each escaped byte is summed 0x20 short. */
  lemma {:induction false} SubstSumShort(body: seq<Byte>)
    ensures SubstSum(body) + 32 * SpecialCount(body) == Sum(body)
    decreases |body|
  {
    if body != [] {
      SubstSumShort(body[..|body| - 1]);
    }
  }

  /** The lower-case hex digit of a nibble. */
  function HexDigit(n: nat): (c: Byte)
    requires n < 16
    ensures n <= 9 ==> c == n + 0x30
    ensures n > 9 ==> c == n - 10 + 0x61
  {
    if n > 9 then n - 10 + 0x61 else n + 0x30
  }

  /** The value of a hex digit of either case; None for any other byte. */
  function HexValue(c: Byte): (r: Option<nat>)
    ensures r.Some? ==> r.value < 16
    ensures r.Some? <==> (0x30 <= c <= 0x39 || 0x41 <= c <= 0x46 || 0x61 <= c <= 0x66)
  {
    if 0x30 <= c <= 0x39 then Some(c - 0x30)
    else if 0x41 <= c <= 0x46 then Some(c - 0x41 + 10)
    else if 0x61 <= c <= 0x66 then Some(c - 0x61 + 10)
    else None
  }

  lemma HexRoundTrip(n: nat)
    requires n < 16
    ensures HexValue(HexDigit(n)) == Some(n)
  {
  }

  // ---- Sending ----

  /**
   * gdb_send_msg: the escaped body built so far and the checksum of the
   * bytes added, each after substitution, mod 256.
   */
  class SendMsg {
    /** The bytes handed to add(), in order. */
    ghost var body: seq<Byte>
    var msg: seq<Byte>
    var csum: Byte

    ghost predicate Valid()
      reads this
    {
      msg == Escape(body) && csum == SubstSum(body) % 256
    }

    constructor ()
      ensures Valid() && body == [] && msg == [] && csum == 0
    {
      body := [];
      msg := [];
      csum := 0;
    }

    /** add(m): escape the byte if needed and sum the byte sent after any `}`. */
    method Add(m: Byte)
      requires Valid()
      modifies this
      ensures Valid() && body == old(body) + [m]
      ensures msg == old(msg) + Encoded(m) && csum == (old(csum) + Substituted(m)) % 256
    {
      var b := m;
      var out := msg;
      if m == HASH || m == DOLLAR || m == ESCAPE {
        out := out + [ESCAPE];
        b := Flip(m);
      }
      out := out + [b];
      assert b == Substituted(m) && out == msg + Encoded(m);
      SentByte(body, m, msg, csum);
      msg := out;
      csum := (csum + b) % 256;
      body := body + [m];
    }

    /** operator<<(const char *): add each byte of the string in turn. */
    method AddAll(s: seq<Byte>)
      requires Valid()
      modifies this
      ensures Valid() && body == old(body) + s
    {
      ghost var start := body;
      var i := 0;
      while i < |s|
        invariant 0 <= i <= |s|
        invariant Valid()
        invariant body == start + s[..i]
      {
        Add(s[i]);
        SnocPrefix(start, s, i);
        i := i + 1;
      }
      assert s[..i] == s;
    }

    /** get_csum(idx): the high (0) or low (1) checksum digit. */
    function GetCsum(idx: nat): (c: Byte)
      requires idx == 0 || idx == 1
      reads this
      ensures HexValue(c) == Some(if idx == 0 then csum / 16 else csum % 16)
    {
      var n := if idx == 0 then csum / 16 else csum % 16;
      HexRoundTrip(n);
      HexDigit(n)
    }

    /** operator<<(ostream, msg): `$`, the escaped bytes one by one, `#`, the two digits. */
    method Framed() returns (out: seq<Byte>)
      requires Valid()
      ensures out == FrameAsWritten(body)
    {
      out := [DOLLAR];
      var i := 0;
      while i < |msg|
        invariant 0 <= i <= |msg|
        invariant out == [DOLLAR] + msg[..i]
      {
        out := out + [msg[i]];
        SnocPrefix([DOLLAR], msg, i);
        i := i + 1;
      }
      assert msg[..i] == msg;
      var hi, lo := GetCsum(0), GetCsum(1);
      CsumDigits(SubstSum(body), csum);
      out := out + [HASH, hi, lo];
    }
  }

  /** What add(m) does to the escaped body and the checksum, on values. */
  lemma SentByte(body: seq<Byte>, m: Byte, msg: seq<Byte>, csum: Byte)
    requires msg == Escape(body) && csum == SubstSum(body) % 256
    ensures Escape(body + [m]) == msg + Encoded(m)
    ensures SubstSum(body + [m]) % 256 == (csum + Substituted(m)) % 256
  {
    AppendOne(body, m);
    ModAdd(SubstSum(body), Substituted(m));
  }

  /** One more element on a prefix. */
  lemma SnocPrefix(start: seq<Byte>, s: seq<Byte>, i: nat)
    requires i < |s|
    ensures start + s[..i] + [s[i]] == start + s[..i + 1]
  {
    assert s[..i + 1] == s[..i] + [s[i]];
  }

  /** The digits of a sum are those of the sum reduced mod 256. */
  lemma CsumDigits(sum: nat, csum: Byte)
    requires csum == sum % 256
    ensures Digits(sum) == [HexDigit(csum / 16), HexDigit(csum % 16)]
  {
    assert csum % 16 == sum % 16;
  }

  /** The two digits of a checksum, high nibble first. */
  function Digits(sum: nat): (r: seq<Byte>)
    ensures |r| == 2
    ensures HexValue(r[0]) == Some((sum % 256) / 16) && HexValue(r[1]) == Some(sum % 16)
  {
    HexRoundTrip((sum % 256) / 16);
    HexRoundTrip(sum % 16);
    [HexDigit((sum % 256) / 16), HexDigit(sum % 16)]
  }

  /** The frame the sender writes for a body: its checksum sums the substituted bytes. */
  function FrameAsWritten(body: seq<Byte>): seq<Byte>
  {
    [DOLLAR] + Escape(body) + [HASH] + Digits(SubstSum(body))
  }

  /**
   * The frame as the protocol defines it: the checksum is the sum, mod 256,
   * of every byte between `$` and `#`, escape bytes included.
   */
  function Frame(body: seq<Byte>): (r: seq<Byte>)
    ensures |r| == |Escape(body)| + 4
    ensures r[0] == DOLLAR && r[1..|r| - 3] == Escape(body) && r[|r| - 3] == HASH
    ensures HexValue(r[|r| - 2]) == Some((Sum(r[1..|r| - 3]) % 256) / 16)
    ensures HexValue(r[|r| - 1]) == Some(Sum(r[1..|r| - 3]) % 16)
  {
    var r := [DOLLAR] + Escape(body) + [HASH] + Digits(Sum(Escape(body)));
    assert r[1..|r| - 3] == Escape(body);
    r
  }

  /** Without escaped bytes the sender's checksum is the protocol's. */
  lemma {:induction false} PlainBodySums(body: seq<Byte>)
    requires forall i | 0 <= i < |body| :: !Special(body[i])
    ensures Escape(body) == body && SubstSum(body) == Sum(body)
    ensures FrameAsWritten(body) == Frame(body)
    decreases |body|
  {
    if body != [] {
      PlainBodySums(body[..|body| - 1]);
    }
  }

  /**
   * A `#` in the body: the sender sends `$}` 0x03 `#03`, while the bytes
   * between `$` and `#` add up to 0x80.
   */
  lemma HashBodyChecksum()
    ensures Escape([HASH]) == [ESCAPE, 0x03]
    ensures FrameAsWritten([HASH]) == [DOLLAR, ESCAPE, 0x03, HASH, 0x30, 0x33]
    ensures Frame([HASH]) == [DOLLAR, ESCAPE, 0x03, HASH, 0x38, 0x30]
  {
    assert Escape([HASH]) == Escape([]) + Encoded(HASH);
    assert SubstSum([HASH]) == SubstSum([]) + 0x03;
    assert [ESCAPE, 0x03][..1] == [ESCAPE];
    assert [ESCAPE][..0] == [];
    assert Sum([ESCAPE]) == Sum([]) + ESCAPE;
    assert Sum([ESCAPE, 0x03]) == Sum([ESCAPE]) + 0x03;
  }

  // ---- Receiving ----

  /** The receiver's states; the source's ST_HEAD is never entered. */
  datatype RcvState = Idle | Body | Csum0 | Csum1 | Finished

  /** gdb_rcv_msg once built: the unescaped body and the checksum digits read. */
  datatype RcvMsg = RcvMsg(msg: seq<Byte>, csum: Byte)

  /**
   * The receiver from a state over what is left of the stream: the message
   * and the rest of the stream, or None where the source aborts. Outside a
   * packet `+` is skipped, `$` starts an empty body, `-` ends the read; in a
   * body `}` takes the next byte XOR 0x20 and `#` moves to the checksum; each
   * of the two checksum bytes must be a hex digit. The end of the stream
   * stops the read wherever it is.
   */
  function Receive(st: RcvState, msg: seq<Byte>, csum: Byte, input: seq<Byte>): (r: Option<(RcvMsg, seq<Byte>)>)
    ensures r.Some? ==> |r.value.1| <= |input|
    decreases |input|
  {
    if st == Finished || input == [] then Some((RcvMsg(msg, csum), input))
    else
      var c := input[0];
      if st == Body then
        if c == ESCAPE then
          if |input| == 1 then Some((RcvMsg(msg, csum), []))
          else Receive(Body, msg + [Flip(input[1])], csum, input[2..])
        else if c == HASH then Receive(Csum0, msg, csum, input[1..])
        else Receive(Body, msg + [c], csum, input[1..])
      else if st == Csum0 || st == Csum1 then
        match HexValue(c)
        case None => None
        case Some(v) => Receive(if st == Csum0 then Csum1 else Finished, msg, (csum * 16 + v) % 256, input[1..])
      else if c == ACK then Receive(Idle, msg, csum, input[1..])
      else if c == DOLLAR then Receive(Body, [], csum, input[1..])
      else if c == NACK then Receive(Finished, msg, csum, input[1..])
      else None
  }

  /** gdb_rcv_msg(is): one message from the front of the stream. */
  function Parse(input: seq<Byte>): Option<(RcvMsg, seq<Byte>)>
  {
    Receive(Idle, [], 0, input)
  }

  /** In a body, a byte other than `}` and `#` is kept as it is. */
  lemma ReceivePlain(msg: seq<Byte>, csum: Byte, b: Byte, t: seq<Byte>)
    requires b != ESCAPE && b != HASH
    ensures Receive(Body, msg, csum, [b] + t) == Receive(Body, msg + [b], csum, t)
  {
    assert ([b] + t)[1..] == t;
  }

  /** In a body, `}` and the byte after it give that byte XOR 0x20. */
  lemma ReceiveEscape(msg: seq<Byte>, csum: Byte, x: Byte, t: seq<Byte>)
    ensures Receive(Body, msg, csum, [ESCAPE, x] + t) == Receive(Body, msg + [Flip(x)], csum, t)
  {
    assert ([ESCAPE, x] + t)[2..] == t;
  }

  /** In a body, `#` moves to the checksum. */
  lemma ReceiveHash(msg: seq<Byte>, csum: Byte, t: seq<Byte>)
    ensures Receive(Body, msg, csum, [HASH] + t) == Receive(Csum0, msg, csum, t)
  {
    assert ([HASH] + t)[1..] == t;
  }

  /** Outside a packet, `$` starts an empty body. */
  lemma ReceiveDollar(msg: seq<Byte>, csum: Byte, t: seq<Byte>)
    ensures Receive(Idle, msg, csum, [DOLLAR] + t) == Receive(Body, [], csum, t)
  {
    assert ([DOLLAR] + t)[1..] == t;
  }

  /** A checksum digit shifts the checksum up a nibble. */
  lemma ReceiveDigit(st: RcvState, msg: seq<Byte>, csum: Byte, c: Byte, v: nat, t: seq<Byte>)
    requires st == Csum0 || st == Csum1
    requires HexValue(c) == Some(v)
    ensures Receive(st, msg, csum, [c] + t)
      == Receive(if st == Csum0 then Csum1 else Finished, msg, (csum * 16 + v) % 256, t)
  {
    assert ([c] + t)[1..] == t;
  }

  /** In a body, the encoding of one byte reads back as that byte. */
  lemma ReceiveEncoded(msg: seq<Byte>, csum: Byte, b: Byte, t: seq<Byte>)
    ensures Receive(Body, msg, csum, Encoded(b) + t) == Receive(Body, msg + [b], csum, t)
  {
    if Special(b) {
      assert Encoded(b) + t == [ESCAPE, Flip(b)] + t;
      ReceiveEscape(msg, csum, Flip(b), t);
      FlipFlip(b);
    } else {
      ReceivePlain(msg, csum, b, t);
    }
  }

  /** The escaped bytes of a body read back in a body state give the body. */
  lemma {:induction false} ReceiveEscaped(msg: seq<Byte>, csum: Byte, body: seq<Byte>, tail: seq<Byte>)
    ensures Receive(Body, msg, csum, Escape(body) + tail) == Receive(Body, msg + body, csum, tail)
    decreases |body|
  {
    if body == [] {
      assert Escape(body) + tail == tail;
      assert msg + body == msg;
    } else {
      var b, s := body[0], body[1..];
      assert body == [b] + s;
      EscapeCons(b, s);
      assert Escape(body) + tail == Encoded(b) + (Escape(s) + tail);
      ReceiveEncoded(msg, csum, b, Escape(s) + tail);
      ReceiveEscaped(msg + [b], csum, s, tail);
      assert msg + [b] + s == msg + body;
    }
  }

  /** Two hex digits after `#` set the checksum to their value and end the read. */
  lemma ReceiveDigits(msg: seq<Byte>, csum: Byte, d: seq<Byte>, rest: seq<Byte>, hi: nat, lo: nat)
    requires |d| == 2 && hi < 16 && lo < 16 && HexValue(d[0]) == Some(hi) && HexValue(d[1]) == Some(lo)
    ensures Receive(Csum0, msg, csum, d + rest) == Some((RcvMsg(msg, 16 * hi + lo), rest))
  {
    var c1 := (csum * 16 + hi) % 256;
    assert d + rest == [d[0]] + ([d[1]] + rest);
    ReceiveDigit(Csum0, msg, csum, d[0], hi, [d[1]] + rest);
    ReceiveDigit(Csum1, msg, c1, d[1], lo, rest);
    NibbleShift(csum, hi, lo);
  }

  /** Two nibbles shifted into an 8-bit checksum leave only themselves. */
  lemma NibbleShift(csum: Byte, hi: nat, lo: nat)
    requires hi < 16 && lo < 16
    ensures (((csum * 16 + hi) % 256) * 16 + lo) % 256 == 16 * hi + lo
  {
    var q := (csum * 16 + hi) / 256;
    var c1 := (csum * 16 + hi) % 256;
    assert c1 == csum * 16 + hi - 256 * q;
    assert c1 * 16 + lo == 256 * (csum - 16 * q) + (16 * hi + lo);
  }

  /** A byte's two nibbles put back together. */
  lemma NibbleSplit(x: nat)
    ensures 16 * ((x % 256) / 16) + x % 16 == x % 256
  {
    var y := x % 256;
    assert x % 16 == y % 16 by {
      assert x == 256 * (x / 256) + y;
      assert x == 16 * (16 * (x / 256)) + y;
    }
  }

  /** `$`, an escaped body, `#` and two digits parse to the body and the digits' value. */
  lemma ParseFramed(body: seq<Byte>, sum: nat, rest: seq<Byte>)
    ensures Parse([DOLLAR] + Escape(body) + [HASH] + Digits(sum) + rest) == Some((RcvMsg(body, sum % 256), rest))
  {
    var d := Digits(sum);
    var y := [HASH] + (d + rest);
    NibbleSplit(sum);
    calc {
      Parse([DOLLAR] + Escape(body) + [HASH] + d + rest);
      { assert [DOLLAR] + Escape(body) + [HASH] + d + rest == [DOLLAR] + (Escape(body) + y); }
      Receive(Idle, [], 0, [DOLLAR] + (Escape(body) + y));
      { ReceiveDollar([], 0, Escape(body) + y); }
      Receive(Body, [], 0, Escape(body) + y);
      { ReceiveEscaped([], 0, body, y); assert [] + body == body; }
      Receive(Body, body, 0, [HASH] + (d + rest));
      { ReceiveHash(body, 0, d + rest); }
      Receive(Csum0, body, 0, d + rest);
      { ReceiveDigits(body, 0, d, rest, (sum % 256) / 16, sum % 16); }
      Some((RcvMsg(body, sum % 256), rest));
    }
  }

  /** Parsing a frame gives back the body and its checksum, and leaves the rest of the stream. */
  lemma FrameRoundTrip(body: seq<Byte>, rest: seq<Byte>)
    ensures Parse(Frame(body) + rest) == Some((RcvMsg(body, Sum(Escape(body)) % 256), rest))
  {
    ParseFramed(body, Sum(Escape(body)), rest);
  }

  /** The same for the frame the sender writes, with its own checksum. */
  lemma FrameAsWrittenRoundTrip(body: seq<Byte>, rest: seq<Byte>)
    ensures Parse(FrameAsWritten(body) + rest) == Some((RcvMsg(body, SubstSum(body) % 256), rest))
  {
    ParseFramed(body, SubstSum(body), rest);
  }

  /** check_csum: the unescaped body summed mod 256 against the digits read. */
  predicate CheckCsum(m: RcvMsg)
  {
    Sum(m.msg) % 256 == m.csum
  }

  lemma ModShift32(s: nat, k: nat)
    requires 32 * k <= s
    ensures ((s - 32 * k) % 256 == s % 256) <==> k % 8 == 0
  {
    var q := k / 8;
    var r := k % 8;
    assert k == 8 * q + r;
    assert s - 32 * k == (s - 32 * r) - 256 * q;
    assert (s - 32 * k) % 256 == (s - 32 * r) % 256;
  }

  /**
   * The receiver's check of the sender's own frame passes exactly when the
   * number of escaped bytes in the body is a multiple of 8: each one is
   * summed 0x20 short by the sender and in full by the receiver.
   */
  lemma SelfCheck(body: seq<Byte>)
    ensures Parse(FrameAsWritten(body)).Some?
    ensures CheckCsum(Parse(FrameAsWritten(body)).value.0) <==> SpecialCount(body) % 8 == 0
  {
    FrameAsWrittenRoundTrip(body, []);
    assert FrameAsWritten(body) + [] == FrameAsWritten(body);
    SubstSumShort(body);
    ModShift32(Sum(body), SpecialCount(body));
  }

  /** The receiver's loop over the stream: the state variable and one byte at a time. */
  method ReadMsg(input: seq<Byte>) returns (r: Option<(RcvMsg, seq<Byte>)>)
    ensures r == Parse(input)
  {
    var st := Idle;
    var msg: seq<Byte> := [];
    var csum: Byte := 0;
    var k := 0;
    while st != Finished
      invariant 0 <= k <= |input|
      invariant Receive(st, msg, csum, input[k..]) == Parse(input)
      decreases |input| - k, st != Finished
    {
      if k == |input| {
        return Some((RcvMsg(msg, csum), []));
      }
      var c := input[k];
      k := k + 1;
      if st == Body {
        if c == ESCAPE {
          if k == |input| {
            return Some((RcvMsg(msg, csum), []));
          }
          msg := msg + [Flip(input[k])];
          k := k + 1;
        } else if c == HASH {
          st := Csum0;
        } else {
          msg := msg + [c];
        }
      } else if st == Csum0 || st == Csum1 {
        var v := HexValue(c);
        if v.None? {
          return None;
        }
        csum := (csum * 16 + v.value) % 256;
        st := if st == Csum0 then Csum1 else Finished;
      } else if c == ACK {
        st := Idle;
      } else if c == DOLLAR {
        msg := [];
        st := Body;
      } else if c == NACK {
        st := Finished;
      } else {
        return None;
      }
    }
    r := Some((RcvMsg(msg, csum), input[k..]));
  }

  // ---- Queries on a received body ----

  /** start_with(str, offset): str is a prefix of the body; the offset is not used. */
  method StartWith(msg: seq<Byte>, str: seq<Byte>, offset: nat) returns (r: bool)
    ensures r <==> str <= msg
  {
    var idx := 0;
    while idx < |str|
      invariant 0 <= idx <= |str|
      invariant str[..idx] <= msg
    {
      if idx >= |msg| || str[idx] != msg[idx] {
        return false;
      }
      idx := idx + 1;
    }
    assert str[..idx] == str;
    return true;
  }

  /** The fields of a byte string between commas: n commas give n + 1 fields. */
  function Fields(s: seq<Byte>): (r: seq<seq<Byte>>)
    ensures |r| > 0
    decreases |s|
  {
    if COMMA !in s then [s]
    else
      var i := FirstComma(s);
      [s[..i]] + Fields(s[i + 1..])
  }

  /** The index of the first comma. */
  function FirstComma(s: seq<Byte>): (i: nat)
    requires COMMA in s
    ensures i < |s| && s[i] == COMMA
    ensures forall j | 0 <= j < i :: s[j] != COMMA
  {
    if s[0] == COMMA then 0 else 1 + FirstComma(s[1..])
  }

  /** No field holds a comma. */
  lemma {:induction false} FieldsCommaFree(s: seq<Byte>)
    ensures forall t | t in Fields(s) :: COMMA !in t
    decreases |s|
  {
    if COMMA in s {
      FieldsCommaFree(s[FirstComma(s) + 1..]);
    }
  }

  /** Fields joined back with commas. */
  function Join(fields: seq<seq<Byte>>): seq<Byte>
  {
    if fields == [] then []
    else if |fields| == 1 then fields[0]
    else fields[0] + [COMMA] + Join(fields[1..])
  }

  lemma {:induction false} JoinFields(s: seq<Byte>)
    ensures Join(Fields(s)) == s
    decreases |s|
  {
    if COMMA in s {
      var i := FirstComma(s);
      JoinFields(s[i + 1..]);
      assert s == s[..i] + [COMMA] + s[i + 1..];
    }
  }

  /** A comma with none before it is the first comma. */
  lemma {:induction false} FirstCommaIs(s: seq<Byte>, i: nat)
    requires i < |s| && s[i] == COMMA
    requires forall j | 0 <= j < i :: s[j] != COMMA
    ensures FirstComma(s) == i
    decreases i
  {
    if i > 0 {
      assert s[0] != COMMA;
      FirstCommaIs(s[1..], i - 1);
    }
  }

  /** A string without a comma is one field. */
  lemma OneField(s: seq<Byte>)
    requires forall j | 0 <= j < |s| :: s[j] != COMMA
    ensures Fields(s) == [s]
  {
    assert COMMA !in s;
  }

  /** The fields of a string with a comma: the part before the first one, then the fields after it. */
  lemma FieldsAt(s: seq<Byte>, i: nat)
    requires i < |s| && s[i] == COMMA
    requires forall j | 0 <= j < i :: s[j] != COMMA
    ensures Fields(s) == [s[..i]] + Fields(s[i + 1..])
  {
    FirstCommaIs(s, i);
  }

  /** Cutting at a comma between two parts splits the fields there. */
  lemma {:induction false} FieldsConcat(a: seq<Byte>, b: seq<Byte>)
    ensures Fields(a + [COMMA] + b) == Fields(a) + Fields(b)
    decreases |a|
  {
    if COMMA !in a {
      FieldsAtEnd(a, b);
    } else {
      var i := FirstComma(a);
      FieldsAfterComma(a, b, i);
      FieldsConcat(a[i + 1..], b);
      FieldsAt(a, i);
      ConsAssoc(a[..i], Fields(a[i + 1..]), Fields(b));
    }
  }

  lemma ConsAssoc(x: seq<Byte>, p: seq<seq<Byte>>, q: seq<seq<Byte>>)
    ensures [x] + (p + q) == ([x] + p) + q
  {
  }

  /** Without a comma in a, a is the first field of a + `,` + b. */
  lemma FieldsAtEnd(a: seq<Byte>, b: seq<Byte>)
    requires COMMA !in a
    ensures Fields(a + [COMMA] + b) == Fields(a) + Fields(b)
  {
    var s := a + [COMMA] + b;
    FieldsAt(s, |a|);
    assert s[..|a|] == a;
    assert s[|a| + 1..] == b;
  }

  /** The first comma of a is the first comma of a + `,` + b. */
  lemma FieldsAfterComma(a: seq<Byte>, b: seq<Byte>, i: nat)
    requires i < |a| && a[i] == COMMA
    requires forall j | 0 <= j < i :: a[j] != COMMA
    ensures Fields(a + [COMMA] + b) == [a[..i]] + Fields(a[i + 1..] + [COMMA] + b)
  {
    var s := a + [COMMA] + b;
    FieldsAt(s, i);
    assert s[..i] == a[..i];
    assert s[i + 1..] == a[i + 1..] + [COMMA] + b;
  }

  /**
   * What split() returns: the comma-separated fields, where a final comma
   * adds no empty field and an empty body gives no field at all.
   */
  function SplitSpec(msg: seq<Byte>): seq<seq<Byte>>
  {
    if msg == [] then []
    else if msg[|msg| - 1] == COMMA then Fields(msg[..|msg| - 1])
    else Fields(msg)
  }

  /** Joining the tokens with commas gives the body back, short of a final comma. */
  lemma SplitJoin(msg: seq<Byte>)
    ensures msg != [] && msg[|msg| - 1] == COMMA ==> Join(SplitSpec(msg)) + [COMMA] == msg
    ensures !(msg != [] && msg[|msg| - 1] == COMMA) ==> Join(SplitSpec(msg)) == msg
    ensures forall t | t in SplitSpec(msg) :: COMMA !in t
  {
    if msg != [] {
      var n := |msg|;
      if msg[n - 1] == COMMA {
        JoinFields(msg[..n - 1]);
        FieldsCommaFree(msg[..n - 1]);
      } else {
        JoinFields(msg);
        FieldsCommaFree(msg);
      }
    }
  }

  /** The tokens the loop has closed: the fields of the body before the comma at start - 1. */
  function Closed(msg: seq<Byte>, start: nat): seq<seq<Byte>>
    requires start <= |msg|
  {
    if start == 0 then [] else Fields(msg[..start - 1])
  }

  /** split(): the loop over the body that closes a token at each comma and at the last byte. */
  method Split(msg: seq<Byte>) returns (ret: seq<seq<Byte>>)
    ensures ret == SplitSpec(msg)
  {
    ret := [];
    var start := 0;
    var i := 0;
    while i < |msg|
      invariant 0 <= start <= i <= |msg|
      invariant start > 0 ==> msg[start - 1] == COMMA
      invariant forall j | start <= j < i :: msg[j] != COMMA
      invariant i < |msg| || start == i ==> ret == Closed(msg, start)
      invariant i == |msg| && start < i ==> ret == Closed(msg, start) + [msg[start..]]
    {
      if msg[i] == COMMA {
        ClosedStep(msg, start, i);
        ret := ret + [msg[start..i]];
        start := i + 1;
      } else if i == |msg| - 1 {
        assert msg[start..i + 1] == msg[start..];
        ret := ret + [msg[start..i + 1]];
      }
      i := i + 1;
    }
    if |msg| > 0 {
      var n := |msg|;
      if msg[n - 1] == COMMA {
        assert start == n;
      } else {
        ClosedStep(msg + [COMMA], start, n);
        assert (msg + [COMMA])[..n] == msg;
        assert (msg + [COMMA])[start..n] == msg[start..];
        if start > 0 {
          assert (msg + [COMMA])[..start - 1] == msg[..start - 1];
        }
      }
    }
  }

  /** Closing the token before a comma at i adds that token to the closed fields. */
  lemma ClosedStep(msg: seq<Byte>, start: nat, i: nat)
    requires start <= i < |msg| && msg[i] == COMMA
    requires start > 0 ==> msg[start - 1] == COMMA
    requires forall j | start <= j < i :: msg[j] != COMMA
    ensures Closed(msg, i + 1) == Closed(msg, start) + [msg[start..i]]
  {
    OneField(msg[start..i]);
    if start > 0 {
      CommaBetween(msg, start - 1, i);
      FieldsConcat(msg[..start - 1], msg[start..i]);
    } else {
      assert msg[..i] == msg[start..i];
    }
  }

  /** The bytes up to i are those before a comma at k, the comma and those after it. */
  lemma CommaBetween(s: seq<Byte>, k: nat, i: nat)
    requires k < i <= |s| && s[k] == COMMA
    ensures s[..k] + [COMMA] + s[k + 1..i] == s[..i]
  {
  }
}
