/** The output encodings of nanocat (tools/nanocat.c, nn_print_message) that keep every byte:
    quoted, hexadecimal and MessagePack.  Each is self-delimiting, so a stream of messages can
    be read back.  Characters are their ASCII codes; isprint is that of the C locale. */
module Nanocat {
  import opened Util
  import opened Wire

  const NEWLINE := 10
  const RETURN := 13
  const QUOTE := 34
  const BACKSLASH := 92
  const LETTER_N := 110
  const LETTER_R := 114
  const LETTER_X := 120
  const BIN8 := 0xc4
  const BIN16 := 0xc5
  const BIN32 := 0xc6

  datatype Format = FQuoted | FHex | FMsgpack

  predicate Printable(b: byte) { 0x20 <= b <= 0x7e }

  /** A digit of %02x. */
  function Digit(n: nat): byte
    requires n < 16
  {
    if n < 10 then 48 + n else 87 + n
  }

  function HexByte(b: byte): seq<byte> { [BACKSLASH, LETTER_X, Digit(b / 16), Digit(b % 16)] }

  function QuotedByte(b: byte): seq<byte> {
    if b == NEWLINE then [BACKSLASH, LETTER_N]
    else if b == RETURN then [BACKSLASH, LETTER_R]
    else if b == BACKSLASH || b == QUOTE then [BACKSLASH, b]
    else if Printable(b) then [b]
    else HexByte(b)
  }

  function Escaped(f: Format, b: byte): seq<byte> { if f == FQuoted then QuotedByte(b) else HexByte(b) }

  function Inside(f: Format, m: seq<byte>): seq<byte> {
    if m == [] then [] else Inside(f, m[..|m| - 1]) + Escaped(f, m[|m| - 1])
  }

  /** The length prefix of the bin format family of MessagePack. */
  function BinHead(n: nat): seq<byte>
    requires n < 0x1_0000_0000
  {
    if n < 0x100 then [BIN8, n] else if n < 0x1_0000 then [BIN16] + PutS(n) else [BIN32] + PutL(n)
  }

  /** What is printed for one message.  buflen is an int, so a message is below 2^31 bytes. */
  function Encode(f: Format, m: seq<byte>): seq<byte>
    requires |m| < 0x8000_0000
  {
    if f == FMsgpack then BinHead(|m|) + m else [QUOTE] + Inside(f, m) + [QUOTE, NEWLINE]
  }

  /** stdout. */
  class Output {
    var text: seq<byte>

    constructor ()
      ensures text == []
    {
      text := [];
    }

    method Put(b: byte)
      modifies this
      ensures text == old(text) + [b]
    {
      text := text + [b];
    }

    /** The fprintf of a byte as \xhh. */
    method PutHex(b: byte)
      modifies this
      ensures text == old(text) + HexByte(b)
    {
      Put(BACKSLASH);
      Put(LETTER_X);
      Put(Digit(b / 16));
      Put(Digit(b % 16));
    }

    /** The switch of NN_ECHO_QUOTED. */
    method PutQuoted(c: byte)
      modifies this
      ensures text == old(text) + QuotedByte(c)
    {
      if c == NEWLINE { Put(BACKSLASH); Put(LETTER_N); }
      else if c == RETURN { Put(BACKSLASH); Put(LETTER_R); }
      else if c == BACKSLASH || c == QUOTE { Put(BACKSLASH); Put(c); }
      else if Printable(c) { Put(c); }
      else { PutHex(c); }
    }

    /** NN_ECHO_QUOTED and NN_ECHO_HEX. */
    method EchoQuoted(f: Format, buf: seq<byte>)
      requires f != FMsgpack && |buf| < 0x8000_0000
      modifies this
      ensures text == old(text) + Encode(f, buf)
    {
      hide QuotedByte, HexByte;
      Put(QUOTE);
      var i := 0;
      while i < |buf|
        invariant 0 <= i <= |buf| && text == old(text) + [QUOTE] + Inside(f, buf[..i])
      {
        assert buf[..i + 1][..i] == buf[..i];
        if f == FHex { PutHex(buf[i]); } else { PutQuoted(buf[i]); }
        i := i + 1;
      }
      assert buf[..i] == buf;
      Put(QUOTE);
      Put(NEWLINE);
      assert text == old(text) + ([QUOTE] + Inside(f, buf) + [QUOTE, NEWLINE]);
    }

    /** NN_ECHO_MSGPACK. */
    method EchoMsgpack(buf: seq<byte>)
      requires |buf| < 0x8000_0000
      modifies this
      ensures text == old(text) + Encode(FMsgpack, buf)
    {
      PutHead(|buf|);
      text := text + buf;
      assert text == old(text) + (BinHead(|buf|) + buf);
    }

    method PutHead(buflen: nat)
      requires buflen < 0x8000_0000
      modifies this
      ensures text == old(text) + BinHead(buflen)
    {
      if buflen < 256 {
        Put(BIN8);
        Put(buflen);
      } else if buflen < 65536 {
        Put(BIN16);
        Put(buflen / 0x100);
        Put(buflen % 0x100);
      } else {
        PutLBytes(buflen);
        hide PutL;
        Put(BIN32);
        Put(buflen / 0x100_0000);
        Put(buflen / 0x1_0000 % 0x100);
        Put(buflen / 0x100 % 0x100);
        Put(buflen % 0x100);
      }
    }
  }

  /** A reader of hexadecimal digits. */
  function Value(d: byte): Option<nat> {
    if 48 <= d <= 57 then Some(d - 48) else if 97 <= d <= 102 then Some(d - 87) else None
  }

  /** A reader of the quoted text up to its closing quote and newline. */
  function ReadInside(s: seq<byte>, m: seq<byte>): Option<(seq<byte>, seq<byte>)>
    decreases |s|
  {
    if |s| < 2 then None
    else if s[0] == QUOTE then (if s[1] == NEWLINE then Some((m, s[2..])) else None)
    else if s[0] != BACKSLASH then ReadInside(s[1..], m + [s[0]])
    else if s[1] == LETTER_N then ReadInside(s[2..], m + [NEWLINE])
    else if s[1] == LETTER_R then ReadInside(s[2..], m + [RETURN])
    else if s[1] == BACKSLASH || s[1] == QUOTE then ReadInside(s[2..], m + [s[1]])
    else if s[1] != LETTER_X || |s| < 4 || Value(s[2]).None? || Value(s[3]).None? then None
    else ReadInside(s[4..], m + [16 * Value(s[2]).value + Value(s[3]).value])
  }

  /** A reader of one message; it gives the message and what follows it. */
  function Read(f: Format, s: seq<byte>): Option<(seq<byte>, seq<byte>)> {
    if f != FMsgpack then (if s == [] || s[0] != QUOTE then None else ReadInside(s[1..], []))
    else if |s| >= 2 && s[0] == BIN8 then Take(s[2..], s[1])
    else if |s| >= 3 && s[0] == BIN16 then Take(s[3..], GetS(s[1..3]))
    else if |s| >= 5 && s[0] == BIN32 then Take(s[5..], GetL(s[1..5]))
    else None
  }

  function Take(s: seq<byte>, n: nat): Option<(seq<byte>, seq<byte>)> {
    if n <= |s| then Some((s[..n], s[n..])) else None
  }

  lemma ReadHexStep(s: seq<byte>, m: seq<byte>, v: nat, w: nat)
    requires |s| >= 4 && s[0] == BACKSLASH && s[1] == LETTER_X && v < 16 && w < 16
    requires Value(s[2]) == Some(v) && Value(s[3]) == Some(w)
    ensures ReadInside(s, m) == ReadInside(s[4..], m + [16 * v + w])
  {
  }

  lemma ReadHex(b: byte, m: seq<byte>, rest: seq<byte>)
    requires |rest| >= 2
    ensures ReadInside(HexByte(b) + rest, m) == ReadInside(rest, m + [b])
  {
    hide ReadInside, Digit, Value;
    var s := HexByte(b) + rest;
    var v, w := b / 16, b % 16;
    DigitValue(v);
    DigitValue(w);
    assert 16 * v + w == b;
    assert s[4..] == rest;
    ReadHexStep(s, m, v, w);
  }

  lemma DigitValue(n: nat)
    requires n < 16
    ensures Value(Digit(n)) == Some(n)
  {
  }

  lemma ReadEscape(c: byte, b: byte, m: seq<byte>, rest: seq<byte>)
    requires (c == LETTER_N && b == NEWLINE) || (c == LETTER_R && b == RETURN) || (c == b && b in {BACKSLASH, QUOTE})
    ensures ReadInside([BACKSLASH, c] + rest, m) == ReadInside(rest, m + [b])
  {
    assert ([BACKSLASH, c] + rest)[2..] == rest;
  }

  lemma ReadLiteral(b: byte, m: seq<byte>, rest: seq<byte>)
    requires b != QUOTE && b != BACKSLASH && rest != []
    ensures ReadInside([b] + rest, m) == ReadInside(rest, m + [b])
  {
    assert ([b] + rest)[1..] == rest;
  }

  lemma ReadEnd(m: seq<byte>, rest: seq<byte>)
    ensures ReadInside([QUOTE, NEWLINE] + rest, m) == Some((m, rest))
  {
    assert ([QUOTE, NEWLINE] + rest)[2..] == rest;
  }

  lemma ReadOneByte(f: Format, b: byte, m: seq<byte>, rest: seq<byte>)
    requires f != FMsgpack && |rest| >= 2
    ensures ReadInside(Escaped(f, b) + rest, m) == ReadInside(rest, m + [b])
  {
    hide ReadInside, HexByte;
    ReadHex(b, m, rest);
    if f == FQuoted {
      if b == NEWLINE { ReadEscape(LETTER_N, b, m, rest); }
      else if b == RETURN { ReadEscape(LETTER_R, b, m, rest); }
      else if b == BACKSLASH || b == QUOTE { ReadEscape(b, b, m, rest); }
      else if Printable(b) { ReadLiteral(b, m, rest); }
    }
  }

  lemma {:induction false} ReadWhole(f: Format, m: seq<byte>, done: seq<byte>, rest: seq<byte>)
    requires f != FMsgpack && |rest| >= 2
    ensures ReadInside(Inside(f, m) + rest, done) == ReadInside(rest, done + m)
    decreases |m|
  {
    if m == [] {
      assert Inside(f, m) + rest == rest && done + m == done;
    } else {
      hide ReadInside, Inside;
      var init, b := m[..|m| - 1], m[|m| - 1];
      var e := Escaped(f, b);
      hide Escaped;
      InsideStep(f, m, rest);
      ReadWhole(f, init, done, e + rest);
      ReadOneByte(f, b, done + init, rest);
      assert done + init + [b] == done + m by { assert init + [b] == m; }
    }
  }

  lemma InsideStep(f: Format, m: seq<byte>, rest: seq<byte>)
    requires m != []
    ensures Inside(f, m) + rest == Inside(f, m[..|m| - 1]) + (Escaped(f, m[|m| - 1]) + rest)
  {
  }

  /** Reading what was printed gives the message back, whatever comes after it. */
  lemma ReadEncoded(f: Format, m: seq<byte>, rest: seq<byte>)
    requires |m| < 0x8000_0000
    ensures Read(f, Encode(f, m) + rest) == Some((m, rest))
  {
    if f == FMsgpack { ReadPacked(m, rest); } else { ReadQuoted(f, m, rest); }
  }

  lemma ReadQuoted(f: Format, m: seq<byte>, rest: seq<byte>)
    requires f != FMsgpack && |m| < 0x8000_0000
    ensures Read(f, Encode(f, m) + rest) == Some((m, rest))
  {
    hide ReadInside, Inside;
    var end := [QUOTE, NEWLINE] + rest;
    var s := Encode(f, m) + rest;
    assert s == [QUOTE] + (Inside(f, m) + end);
    assert s[1..] == Inside(f, m) + end;
    ReadWhole(f, m, [], end);
    assert [] + m == m;
    ReadEnd(m, rest);
  }

  lemma ReadPacked(m: seq<byte>, rest: seq<byte>)
    requires |m| < 0x8000_0000
    ensures Read(FMsgpack, Encode(FMsgpack, m) + rest) == Some((m, rest))
  {
    var h := BinHead(|m|);
    var s := Encode(FMsgpack, m) + rest;
    GetPut(if |m| < 0x1_0000 then |m| else 0, |m|, 0);
    assert s == h + (m + rest);
    assert s[|h|..] == m + rest && (m + rest)[..|m|] == m && (m + rest)[|m|..] == rest;
    assert s[0] == h[0] && s[1..|h|] == h[1..];
  }

  /** What is printed for a stream of messages. */
  function Stream(f: Format, ms: seq<seq<byte>>): seq<byte>
    requires forall m :: m in ms ==> |m| < 0x8000_0000
  {
    if ms == [] then [] else Encode(f, ms[0]) + Stream(f, ms[1..])
  }

  function ReadStream(f: Format, s: seq<byte>): Option<seq<seq<byte>>>
    decreases |s|
  {
    if s == [] then Some([])
    else match Read(f, s)
      case None => None
      case Some((m, rest)) =>
        if |rest| >= |s| then None
        else match ReadStream(f, rest)
          case None => None
          case Some(ms) => Some([m] + ms)
  }

  /** A stream reads back as exactly the messages that were printed, in every format. */
  lemma {:induction false} ReadBack(f: Format, ms: seq<seq<byte>>)
    requires forall m :: m in ms ==> |m| < 0x8000_0000
    ensures ReadStream(f, Stream(f, ms)) == Some(ms)
    decreases |ms|
  {
    if ms == [] {
    } else {
      hide Read, Encode;
      ReadEncoded(f, ms[0], Stream(f, ms[1..]));
      NotEmpty(f, ms[0]);
      ReadBack(f, ms[1..]);
      assert ms == [ms[0]] + ms[1..];
    }
  }

  lemma NotEmpty(f: Format, m: seq<byte>)
    requires |m| < 0x8000_0000
    ensures Encode(f, m) != []
  {
  }
}
