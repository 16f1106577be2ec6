/** Packets of the GDB remote serial protocol: the writer escapes, frames and checksums a payload, and
    a state machine reads it back byte by byte. */
module GdbPackets {

  type Byte = x: nat | x < 256

  const MAX_PACKET_LENGTH: nat := 4096

  const ESC: Byte := 0x7d        // '}'
  const RUN: Byte := 0x2a        // '*'
  const HASH: Byte := 0x23       // '#'
  const DOLLAR: Byte := 0x24     // '$'
  const ACK: Byte := 0x2b        // '+'
  const NAK: Byte := 0x2d        // '-'

  // ---------------------------------------------------------------- hexadecimal digits

  function ToHex(v: nat): Byte
    requires v < 16
  {
    if v < 10 then 0x30 + v else 0x61 + (v - 10)
  }

  predicate IsHexDigit(ch: Byte) {
    0x30 <= ch <= 0x39 || 0x41 <= ch <= 0x46 || 0x61 <= ch <= 0x66
  }

  function FromHex(ch: Byte): (v: nat)
    ensures v < 16
  {
    if 0x30 <= ch <= 0x39 then ch - 0x30
    else if 0x41 <= ch <= 0x46 then ch - 0x41 + 10
    else if 0x61 <= ch <= 0x66 then ch - 0x61 + 10
    else 0
  }

  // ---------------------------------------------------------------- the writer

  /** `c ^ 0x20` */
  function Flip(c: Byte): Byte {
    if c / 32 % 2 == 0 then c + 32 else c - 32
  }

  predicate Special(c: Byte) {
    c == HASH || c == DOLLAR || c == RUN || c == ESC
  }

  function Escaped(c: Byte): seq<Byte> {
    if Special(c) then [ESC, Flip(c)] else [c]
  }

  function Escape(mem: seq<Byte>): seq<Byte> {
    if mem == [] then [] else Escaped(mem[0]) + Escape(mem[1..])
  }

  function Sum(s: seq<Byte>): nat {
    if s == [] then 0 else s[0] + Sum(s[1..])
  }

  /** The packet that carries `body`. */
  function Frame(body: seq<Byte>): seq<Byte> {
    [DOLLAR] + body + [HASH, ToHex(Sum(body) / 16 % 16), ToHex(Sum(body) % 16)]
  }

  // ---------------------------------------------------------------- the reader

  datatype RSState = Inactive | Idle | GetLine | GetLineEsc | GetLineRle | Chksum1 | Chksum2

  /** The reader: its parsing state, the bytes in the line buffer, the running checksum and the one
      received; the packet it waits to have acknowledged; whether the machine runs; everything it
      has sent, and the payloads it has handed on. */
  datatype Reader = Reader(state: RSState, line: seq<Byte>, sum: nat, csum: nat, last: seq<Byte>, running: bool,
                           sent: seq<Byte>, packets: seq<seq<Byte>>)

  /** One byte while waiting for the answer to the last packet. */
  function Waiting(r: Reader, ch: Byte): Reader {
    var r1 := if ch == NAK then r.(sent := r.sent + r.last) else r;
    if ch == ACK || ch == DOLLAR then r1.(last := []) else r1
  }

  function Repeat(c: Byte, n: nat): seq<Byte> {
    seq(n, _ => c)
  }

  /** One byte of a packet. */
  function Parse(r: Reader, ch: Byte): Reader {
    match r.state
    case Inactive => r
    case Idle => if ch == DOLLAR then r.(line := [], sum := 0, state := GetLine) else r
    case GetLine =>
      if ch == ESC then r.(state := GetLineEsc, sum := r.sum + ch)
      else if ch == RUN then r.(state := GetLineRle, sum := r.sum + ch)
      else if ch == HASH then r.(state := Chksum1)
      else if |r.line| >= MAX_PACKET_LENGTH - 1 then r.(state := Idle)
      else r.(line := r.line + [ch], sum := r.sum + ch)
    case GetLineEsc =>
      if ch == HASH then r.(state := Chksum1)
      else if |r.line| >= MAX_PACKET_LENGTH - 1 then r.(state := Idle)
      else r.(line := r.line + [Flip(ch)], sum := r.sum + ch, state := GetLine)
    case GetLineRle =>
      if ch < 0x20 || ch == HASH || ch == DOLLAR || ch > 126 then r.(state := GetLine)
      else
        var repeat := ch - 0x20 + 3;
        if |r.line| + repeat >= MAX_PACKET_LENGTH - 1 then r.(state := Idle)
        else if |r.line| < 1 then r.(state := GetLine)
        else r.(line := r.line + Repeat(r.line[|r.line| - 1], repeat), sum := r.sum + ch, state := GetLine)
    case Chksum1 =>
      if !IsHexDigit(ch) then r.(state := GetLine) else r.(csum := FromHex(ch) * 16, state := Chksum2)
    case Chksum2 =>
      if !IsHexDigit(ch) then r.(state := GetLine)
      else
        var r1 := r.(csum := r.csum + FromHex(ch));
        if r1.csum != r.sum % 256 then r1.(sent := r.sent + [NAK], state := Idle)
        else r1.(sent := r.sent + [ACK], packets := r.packets + [r.line], state := Idle)
  }

  /** gdb_read_byte */
  function Read(r: Reader, ch: Byte): Reader {
    var r1 := if r.last != [] then Waiting(r, ch) else r;
    if r.last != [] && ch != DOLLAR then r1
    else if r1.running then r1.(running := false)
    else Parse(r1, ch)
  }

  function Feed(r: Reader, bytes: seq<Byte>): Reader
    decreases |bytes|
  {
    if bytes == [] then r else Feed(Read(r, bytes[0]), bytes[1..])
  }

  /** The line always leaves room for its terminator. */
  predicate LineFits(r: Reader) {
    |r.line| < MAX_PACKET_LENGTH
  }

  /** On any stream of bytes at all, the line buffer is not overrun. */
  lemma {:induction false} NeverOverruns(r: Reader, bytes: seq<Byte>)
    requires LineFits(r)
    ensures LineFits(Feed(r, bytes))
    decreases |bytes|
  {
    if bytes != [] {
      NeverOverruns(Read(r, bytes[0]), bytes[1..]);
    }
  }

  // ---------------------------------------------------------------- round trip

  lemma {:induction false} FeedAppend(r: Reader, a: seq<Byte>, b: seq<Byte>)
    ensures Feed(r, a + b) == Feed(Feed(r, a), b)
    decreases |a|
  {
    if a == [] {
      assert a + b == b;
    } else {
      FeedAppend(Read(r, a[0]), a[1..], b);
      assert (a + b)[1..] == a[1..] + b;
    }
  }

  lemma {:induction false} SumAppend(a: seq<Byte>, b: seq<Byte>)
    ensures Sum(a + b) == Sum(a) + Sum(b)
  {
    if a == [] {
      assert a + b == b;
    } else {
      SumAppend(a[1..], b);
      assert (a + b)[1..] == a[1..] + b;
    }
  }

  /** A reader in the middle of a packet, with nothing else going on. */
  predicate Listening(r: Reader) {
    r.last == [] && !r.running && r.state == GetLine && LineFits(r)
  }

  /** One escaped byte adds that byte to the line, or ends the packet if there is no room. */
  lemma OneByte(r: Reader, c: Byte)
    requires Listening(r)
    ensures Feed(r, Escaped(c)) ==
            if |r.line| < MAX_PACKET_LENGTH - 1 then r.(line := r.line + [c], sum := r.sum + Sum(Escaped(c)))
            else r.(state := Idle, sum := Feed(r, Escaped(c)).sum)
  {
    if Special(c) {
      TwoBytes(r, ESC, Flip(c));
      assert Flip(Flip(c)) == c;
      SumOfTwo(ESC, Flip(c));
    } else {
      assert [c][1..] == [];
      assert Feed(r, [c]) == Read(r, c);
    }
  }

  /** A whole escaped payload that has room. */
  lemma {:induction false} WholeLine(r: Reader, mem: seq<Byte>)
    requires Listening(r) && |r.line| + |mem| < MAX_PACKET_LENGTH
    ensures Feed(r, Escape(mem)) == r.(line := r.line + mem, sum := r.sum + Sum(Escape(mem)))
    decreases |mem|
  {
    if mem == [] {
      assert r.line + mem == r.line;
    } else {
      OneByte(r, mem[0]);
      var r1 := Feed(r, Escaped(mem[0]));
      FeedAppend(r, Escaped(mem[0]), Escape(mem[1..]));
      WholeLine(r1, mem[1..]);
      SumAppend(Escaped(mem[0]), Escape(mem[1..]));
      assert r.line + [mem[0]] + mem[1..] == r.line + mem;
    }
  }

  /** Escaped payloads hold no byte that starts or ends a packet. */
  lemma {:induction false} NoMarkers(mem: seq<Byte>)
    ensures forall i :: 0 <= i < |Escape(mem)| ==> Escape(mem)[i] != DOLLAR && Escape(mem)[i] != HASH
  {
    if mem != [] {
      NoMarkers(mem[1..]);
    }
  }

  /** An idle reader ignores everything but the start of a packet. */
  lemma {:induction false} IgnoresUntilStart(r: Reader, bytes: seq<Byte>)
    requires r.state == Idle && r.last == [] && !r.running && forall i :: 0 <= i < |bytes| ==> bytes[i] != DOLLAR
    ensures Feed(r, bytes) == r
    decreases |bytes|
  {
    if bytes != [] {
      assert Read(r, bytes[0]) == r;
      IgnoresUntilStart(r, bytes[1..]);
    }
  }

  /** A payload that does not fit is dropped without an answer. */
  lemma {:induction false} TooLong(r: Reader, mem: seq<Byte>)
    requires Listening(r) && |r.line| + |mem| >= MAX_PACKET_LENGTH
    ensures var f := Feed(r, Escape(mem));
            f.state == Idle && f.last == [] && !f.running && f.sent == r.sent && f.packets == r.packets
    decreases |mem|
  {
    OneByte(r, mem[0]);
    var r1 := Feed(r, Escaped(mem[0]));
    FeedAppend(r, Escaped(mem[0]), Escape(mem[1..]));
    if |r.line| < MAX_PACKET_LENGTH - 1 {
      TooLong(r1, mem[1..]);
    } else {
      NoMarkers(mem[1..]);
      IgnoresUntilStart(r1, Escape(mem[1..]));
    }
  }

  /** Digits stand for their value, in upper and lower case. */
  lemma AnyCase(v: nat)
    requires v < 16
    ensures IsHexDigit(ToHex(v)) && FromHex(ToHex(v)) == v
    ensures v >= 10 ==> ToHex(v) >= 32 && IsHexDigit(ToHex(v) - 32) && FromHex(ToHex(v) - 32) == v
  {}

  /** The end of a packet with the right checksum. */
  lemma RightChecksum(r: Reader, hi: Byte, lo: Byte)
    requires Listening(r) && IsHexDigit(hi) && IsHexDigit(lo) && FromHex(hi) * 16 + FromHex(lo) == r.sum % 256
    ensures var f := Feed(r, [HASH, hi, lo]);
            f.state == Idle && f.last == [] && !f.running && f.sent == r.sent + [ACK] &&
            f.packets == r.packets + [r.line]
  {
    ThreeBytes(r, HASH, hi, lo);
  }

  lemma Footer(r: Reader, sum: nat)
    requires Listening(r) && r.sum == sum
    ensures var f := Feed(r, [HASH, ToHex(sum / 16 % 16), ToHex(sum % 16)]);
            f.state == Idle && f.last == [] && !f.running && f.sent == r.sent + [ACK] &&
            f.packets == r.packets + [r.line]
  {
    AnyCase(sum / 16 % 16);
    AnyCase(sum % 16);
    LastTwoDigits(sum);
    RightChecksum(r, ToHex(sum / 16 % 16), ToHex(sum % 16));
  }

  lemma LastTwoDigits(sum: nat)
    ensures sum / 16 % 16 * 16 + sum % 16 == sum % 256
  {}

  /** What is framed is read back: a payload of at most 4095 bytes is handed on as it is and
      acknowledged, a longer one is dropped.  If an answer was awaited, it is not any more. */
  lemma RoundTrip(r: Reader, mem: seq<Byte>)
    requires r.state == Idle && !r.running
    ensures var f := Feed(r, Frame(Escape(mem)));
            && f.state == Idle && f.last == [] && !f.running
            && (|mem| < MAX_PACKET_LENGTH ==> f.packets == r.packets + [mem] && f.sent == r.sent + [ACK])
            && (|mem| >= MAX_PACKET_LENGTH ==> f.packets == r.packets && f.sent == r.sent)
  {
    var body := Escape(mem);
    var foot := [HASH, ToHex(Sum(body) / 16 % 16), ToHex(Sum(body) % 16)];
    var r1 := Read(r, DOLLAR);
    assert Frame(body) == [DOLLAR] + (body + foot);
    assert ([DOLLAR] + (body + foot))[1..] == body + foot;
    assert Feed(r, Frame(body)) == Feed(r1, body + foot);
    FeedAppend(r1, body, foot);
    if |mem| < MAX_PACKET_LENGTH {
      WholeLine(r1, mem);
      assert [] + mem == mem;
      Footer(Feed(r1, body), Sum(body));
    } else {
      TooLong(r1, mem);
      IgnoresUntilStart(Feed(r1, body), foot);
    }
  }

  /** Any byte, and while an answer is awaited the start of a packet, stops a machine that runs, and does nothing
      else but end the waiting. */
  lemma Interrupts(r: Reader, ch: Byte)
    requires r.running && (r.last == [] || ch == DOLLAR)
    ensures Read(r, ch) == r.(running := false, last := [])
  {}

  /** So the packet after such a byte is read. */
  lemma InterruptThenPacket(r: Reader, ch: Byte, mem: seq<Byte>)
    requires r.state == Idle && r.running && (r.last == [] || ch == DOLLAR) && |mem| < MAX_PACKET_LENGTH
    ensures var f := Feed(r, [ch] + Frame(Escape(mem)));
            && f.state == Idle && f.last == [] && !f.running
            && f.packets == r.packets + [mem] && f.sent == r.sent + [ACK]
  {
    Interrupts(r, ch);
    assert ([ch] + Frame(Escape(mem)))[1..] == Frame(Escape(mem));
    RoundTrip(Read(r, ch), mem);
  }

  /** A run length out of range, or of nothing, is dropped and the line goes on; one that does not fit ends the
      packet without an answer. */
  lemma BadRunLength(r: Reader, ch: Byte)
    requires Listening(r)
    ensures ch < 0x20 || ch == HASH || ch == DOLLAR || ch > 126 || (r.line == [] && ch - 29 < MAX_PACKET_LENGTH - 1) ==>
              Feed(r, [RUN, ch]) == r.(sum := r.sum + RUN)
    ensures 0x20 <= ch <= 126 && ch != HASH && ch != DOLLAR && |r.line| + ch - 29 >= MAX_PACKET_LENGTH - 1 ==>
              Feed(r, [RUN, ch]) == r.(sum := r.sum + RUN, state := Idle)
  {
    TwoBytes(r, RUN, ch);
  }

  /** A '#' without two digits is dropped and the line goes on; '#' ends a packet also after an escape. */
  lemma BadEnd(r: Reader, ch: Byte, hi: Byte)
    requires Listening(r)
    ensures !IsHexDigit(ch) ==> Feed(r, [HASH, ch]) == r
    ensures IsHexDigit(hi) && !IsHexDigit(ch) ==> Feed(r, [HASH, hi, ch]) == r.(csum := FromHex(hi) * 16)
    ensures Feed(r, [ESC, HASH]) == Feed(r.(sum := r.sum + ESC), [HASH])
  {
    TwoBytes(r, HASH, ch);
    TwoBytes(r, ESC, HASH);
    ThreeBytes(r, HASH, hi, ch);
    assert [HASH][1..] == [];
  }

  lemma SumOfTwo(a: Byte, b: Byte)
    ensures Sum([a, b]) == a + b
  {
    assert [a, b][1..] == [b] && [b][1..] == [];
    assert Sum([b]) == b + Sum([]);
  }

  lemma TwoBytes(r: Reader, a: Byte, b: Byte)
    ensures Feed(r, [a, b]) == Read(Read(r, a), b)
  {
    hide Read;
    assert [a, b][1..] == [b] && [b][1..] == [];
    assert Feed(Read(r, a), [b]) == Read(Read(r, a), b);
  }

  lemma ThreeBytes(r: Reader, a: Byte, b: Byte, c: Byte)
    ensures Feed(r, [a, b, c]) == Read(Read(Read(r, a), b), c)
  {
    hide Read;
    assert [a, b, c][1..] == [b, c];
    TwoBytes(Read(r, a), b, c);
  }

  /** The end of a packet, with any two digits, twice: it brings a reader from anywhere in a packet back to where a
      new one can start. */
  lemma Resynchronizes(r: Reader, hi: Byte, lo: Byte, mem: seq<Byte>)
    requires r.last == [] && !r.running && r.state != Inactive && LineFits(r) && IsHexDigit(hi) && IsHexDigit(lo)
    requires |mem| < MAX_PACKET_LENGTH
    ensures var r1 := Feed(r, [HASH, hi, lo] + [HASH, hi, lo]);
            var f := Feed(r, [HASH, hi, lo] + [HASH, hi, lo] + Frame(Escape(mem)));
            r1.state == Idle && f.state == Idle && f.packets == r1.packets + [mem] && f.sent == r1.sent + [ACK]
  {
    var foot := [HASH, hi, lo];
    var r1 := Feed(r, foot);
    var r2 := Feed(r1, foot);
    FeedAppend(r, foot, foot);
    FeedAppend(r, foot + foot, Frame(Escape(mem)));
    ThreeBytes(r, HASH, hi, lo);
    ThreeBytes(r1, HASH, hi, lo);
    NeverOverruns(r, foot);
    EndsPacket(r, hi, lo);
    EndsPacket(r1, hi, lo);
    RoundTrip(r2, mem);
  }

  lemma EndsPacket(r: Reader, hi: Byte, lo: Byte)
    requires r.last == [] && !r.running && r.state != Inactive && IsHexDigit(hi) && IsHexDigit(lo)
    ensures var f := Read(Read(Read(r, HASH), hi), lo);
            && f.last == [] && !f.running && (f.state == Idle || f.state == GetLine)
            && (r.state == Idle || r.state == GetLine || r.state == GetLineEsc ==> f.state == Idle)
  {}

  /** A run-length sequence stands for so many more copies of the byte before it.  Counts of 6 and 7
      cannot be written. */
  lemma RunLength(r: Reader, copies: nat)
    requires Listening(r) && r.line != [] && 3 <= copies <= 97 && copies != 6 && copies != 7
    requires |r.line| + copies < MAX_PACKET_LENGTH - 1
    ensures var f := Feed(r, [RUN, 29 + copies]);
            && f.state == GetLine && f.line == r.line + Repeat(r.line[|r.line| - 1], copies)
            && f.sum == r.sum + Sum([RUN, 29 + copies])
            && f.sent == r.sent && f.packets == r.packets
  {
    TwoBytes(r, RUN, 29 + copies);
    SumOfTwo(RUN, 29 + copies);
  }

  /** A packet whose checksum does not match is refused and not handed on. */
  lemma WrongChecksum(r: Reader, hi: Byte, lo: Byte)
    requires Listening(r) && IsHexDigit(hi) && IsHexDigit(lo) && FromHex(hi) * 16 + FromHex(lo) != r.sum % 256
    ensures var f := Feed(r, [HASH, hi, lo]); f.state == Idle && f.sent == r.sent + [NAK] && f.packets == r.packets
  {
    ThreeBytes(r, HASH, hi, lo);
  }

  /** While an answer is awaited, anything but an answer or the start of a packet is ignored. */
  lemma IgnoresWhileWaiting(r: Reader, ch: Byte)
    requires r.last != [] && ch != ACK && ch != NAK && ch != DOLLAR
    ensures Read(r, ch) == r
  {}

  /** While an answer is awaited, every refusal has the last packet sent once more, and an
      acknowledgement ends the waiting; nothing is parsed meanwhile. */
  lemma {:induction false} Retransmits(r: Reader, refusals: nat)
    requires r.last != []
    ensures var f := Feed(r, Repeat(NAK, refusals) + [ACK]);
            f == r.(last := [], sent := f.sent) && f.sent == r.sent + Copies(r.last, refusals)
    decreases refusals
  {
    var bytes := Repeat(NAK, refusals) + [ACK];
    if refusals == 0 {
      assert bytes == [ACK] && bytes[1..] == [];
      assert Feed(r, bytes) == Read(r, ACK);
      assert r.sent + [] == r.sent;
    } else {
      var r1 := Read(r, NAK);
      assert bytes[0] == NAK && bytes[1..] == Repeat(NAK, refusals - 1) + [ACK];
      Retransmits(r1, refusals - 1);
      assert r.sent + r.last + Copies(r.last, refusals - 1) == r.sent + Copies(r.last, refusals);
    }
  }

  function Copies(s: seq<Byte>, n: nat): seq<Byte> {
    if n == 0 then [] else s + Copies(s, n - 1)
  }

  // ---------------------------------------------------------------- the stub

  /** A byte read through a pointer to signed char. */
  function Signed(c: Byte): int {
    if c < 128 then c else c - 256
  }

  function SignedSum(s: seq<Byte>): int {
    if s == [] then 0 else SignedSum(s[..|s| - 1]) + Signed(s[|s| - 1])
  }

  /** Signed or not makes no difference to the checksum. */
  lemma {:induction false} SignedSumIsSum(s: seq<Byte>)
    ensures (Sum(s) - SignedSum(s)) % 256 == 0
  {
    if s != [] {
      var t := s[..|s| - 1];
      SignedSumIsSum(t);
      SumAppend(t, [s[|s| - 1]]);
      assert t + [s[|s| - 1]] == s;
      assert Sum([s[|s| - 1]]) == s[|s| - 1];
    }
  }

  lemma SameNibbles(a: int, b: int)
    requires (a - b) % 256 == 0
    ensures a / 16 % 16 == b / 16 % 16 && a % 16 == b % 16
  {
    var k := (a - b) / 256;
    assert a == b + 256 * k;
    assert a / 16 == b / 16 + 16 * k;
  }

  class GdbServer {
    const lineBuf: array<Byte>
    var index: nat
    var state: RSState
    var sum: nat
    var csum: nat
    var last: seq<Byte>
    var running: bool
    var sent: seq<Byte>
    var packets: seq<seq<Byte>>

    ghost predicate Valid()
      reads this, lineBuf
    {
      lineBuf.Length == MAX_PACKET_LENGTH && index < MAX_PACKET_LENGTH && (state == Chksum2 ==> lineBuf[index] == 0)
    }

    ghost function View(): Reader
      requires Valid()
      reads this, lineBuf
    {
      Reader(state, lineBuf[..index], sum, csum, last, running, sent, packets)
    }

    constructor ()
      ensures Valid() && fresh(lineBuf) && View() == Reader(Idle, [], 0, 0, [], false, [], [])
    {
      lineBuf := new Byte[MAX_PACKET_LENGTH];
      index, state, sum, csum := 0, Idle, 0, 0;
      last, running, sent, packets := [], false, [], [];
    }

    /** gdb_read_byte */
    method ReadByte(ch: Byte)
      requires Valid()
      modifies this, lineBuf
      ensures Valid() && View() == Read(old(View()), ch)
    {
      if last != [] {
        if ch == NAK {
          sent := sent + last;
        }
        if ch == ACK || ch == DOLLAR {
          last := [];
        }
        if ch != DOLLAR {
          return;
        }
      }
      if running {
        running := false;
      } else {
        ParseByte(ch);
      }
    }

    /** Its switch over the parsing state.  The handler of a complete packet is not modelled beyond
        its being called. */
    method ParseByte(ch: Byte)
      requires Valid()
      modifies this, lineBuf
      ensures Valid() && View() == Parse(old(View()), ch)
    {
      match state {
        case Inactive =>
        case Idle =>
          if ch == DOLLAR {
            index, sum, state := 0, 0, GetLine;
          }
        case GetLine =>
          if ch == ESC {
            state, sum := GetLineEsc, sum + ch;
          } else if ch == RUN {
            state, sum := GetLineRle, sum + ch;
          } else if ch == HASH {
            state := Chksum1;
          } else if index >= lineBuf.Length - 1 {
            state := Idle;
          } else {
            lineBuf[index] := ch;
            index, sum := index + 1, sum + ch;
          }
        case GetLineEsc =>
          if ch == HASH {
            state := Chksum1;
          } else if index >= lineBuf.Length - 1 {
            state := Idle;
          } else {
            lineBuf[index] := Flip(ch);
            index, sum, state := index + 1, sum + ch, GetLine;
          }
        case GetLineRle =>
          if ch < 0x20 || ch == HASH || ch == DOLLAR || ch > 126 {
            state := GetLine;
          } else {
            RepeatLast(ch);
          }
        case Chksum1 =>
          if !IsHexDigit(ch) {
            state := GetLine;
          } else {
            lineBuf[index] := 0;
            csum, state := FromHex(ch) * 16, Chksum2;
          }
        case Chksum2 =>
          if !IsHexDigit(ch) {
            state := GetLine;
          } else {
            csum := csum + FromHex(ch);
            if csum != sum % 256 {
              sent, state := sent + [NAK], Idle;
            } else {
              sent, packets, state := sent + [ACK], packets + [lineBuf[..index]], Idle;
            }
          }
      }
    }

    /** A valid repeat count. */
    method RepeatLast(ch: Byte)
      requires Valid() && state == GetLineRle && 0x20 <= ch <= 126 && ch != HASH && ch != DOLLAR
      modifies this, lineBuf
      ensures Valid() && View() == Parse(old(View()), ch)
    {
      var repeat := ch - 0x20 + 3;
      if index + repeat >= lineBuf.Length - 1 {
        state := Idle;
      } else if index < 1 {
        state := GetLine;
      } else {
        var c := lineBuf[index - 1];
        for i := 0 to repeat
          invariant index == old(index) && Valid() && lineBuf[..index] == old(lineBuf[..index])
          invariant forall j :: index <= j < index + i ==> lineBuf[j] == c
          invariant unchanged(this)
        {
          lineBuf[index + i] := c;
        }
        assert lineBuf[..index + repeat] == old(lineBuf[..index]) + Repeat(c, repeat);
        index, sum, state := index + repeat, sum + ch, GetLine;
      }
    }

    /** memtox: append `mem`, escaped, to `buf` */
    static method Memtox(buf0: seq<Byte>, mem: seq<Byte>) returns (buf: seq<Byte>)
      ensures buf == buf0 + Escape(mem)
    {
      buf := buf0;
      var i := 0;
      while i < |mem|
        invariant 0 <= i <= |mem| && buf + Escape(mem[i..]) == buf0 + Escape(mem)
      {
        var c := mem[i];
        assert mem[i..][1..] == mem[i + 1..];
        ghost var was := buf;
        if Special(c) {
          buf := buf + [ESC];
          buf := buf + [Flip(c)];
          assert buf == was + Escaped(c);
        } else {
          buf := buf + [c];
        }
        assert was + (Escaped(c) + Escape(mem[i + 1..])) == buf + Escape(mem[i + 1..]);
        i := i + 1;
      }
    }

    /** put_packet_binary, in system emulation */
    method PutPacketBinary(buf: seq<Byte>)
      requires Valid()
      modifies this
      ensures Valid() && View() == old(View()).(last := Frame(buf), sent := old(sent) + Frame(buf))
    {
      last := [DOLLAR] + buf;
      var checksum := 0;
      for i := 0 to |buf|
        invariant checksum == SignedSum(buf[..i]) && Valid() && View() == old(View()).(last := [DOLLAR] + buf)
      {
        assert buf[..i + 1][..i] == buf[..i];
        checksum := checksum + Signed(buf[i]);
      }
      assert buf[..|buf|] == buf;
      SignedSumIsSum(buf);
      SameNibbles(Sum(buf), checksum);
      last := last + [HASH, ToHex(checksum / 16 % 16), ToHex(checksum % 16)];
      sent := sent + last;
    }
  }
}
