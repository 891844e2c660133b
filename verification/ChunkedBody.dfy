/** The client's decoder for a chunked message body (section 7.1 of RFC 9112). */
module ChunkedBody {
  import opened Wrappers
  import opened UnicodeText
  import opened Utf8Bytes
  import opened Utf8Lossy

  const USIZE_MAX: nat := 0xFFFF_FFFF_FFFF_FFFF

  /** The largest buffer a vector can be given. */
  const ISIZE_MAX: nat := 0x7FFF_FFFF_FFFF_FFFF

  /** Why decoding fails. Asking for a buffer over the limit is a panic, the others are returned errors. */
  datatype Error = LineNotText | UnexpectedEnd | CapacityOverflow

  // ---- library calls of the decoder ----

  /** The number of bytes up to and including the first line feed; all of them when there is none. */
  function LineEnd(bs: seq<Byte>): (n: nat)
    ensures n <= |bs| && (bs != [] ==> n > 0)
  {
    if bs == [] then 0 else if bs[0] == 10 then 1 else 1 + LineEnd(bs[1..])
  }

  function TrimStart(s: string): string {
    if s != "" && IsWhitespace(s[0]) then TrimStart(s[1..]) else s
  }

  function TrimEnd(s: string): string {
    if s != "" && IsWhitespace(s[|s| - 1]) then TrimEnd(s[..|s| - 1]) else s
  }

  function Trim(s: string): string { TrimEnd(TrimStart(s)) }

  predicate IsHex(c: char) { '0' <= c <= '9' || 'a' <= c <= 'f' || 'A' <= c <= 'F' }

  function HexDigit(c: char): nat
    requires IsHex(c)
  {
    if c <= '9' then c as nat - '0' as nat
    else if c <= 'F' then c as nat - 'A' as nat + 10
    else c as nat - 'a' as nat + 10
  }

  /** Digit by digit, giving up at anything else and on overflow. */
  function ParseDigits(s: string, acc: nat): Option<nat> {
    if s == "" then Some(acc)
    else if !IsHex(s[0]) || acc * 16 + HexDigit(s[0]) > USIZE_MAX then None
    else ParseDigits(s[1..], acc * 16 + HexDigit(s[0]))
  }

  function ParseHex(s: string): Option<nat> {
    var digits := if s != "" && s[0] == '+' then s[1..] else s;
    if digits == "" then None else ParseDigits(digits, 0)
  }

  /** The size a size line announces; a line that is not a number counts as zero. */
  function SizeOf(line: string): nat {
    match ParseHex(Trim(line)) case Some(n) => n case None => 0
  }

  // ---- the decoder ----

  function Decoded(bs: seq<Byte>, body: string): Result<string, Error>
    decreases |bs|
  {
    var n := LineEnd(bs);
    match Decode(bs[..n])
    case None => Err(LineNotText)
    case Some(line) =>
      var size, rest := SizeOf(line), bs[n..];
      if size == 0 then Ok(body)
      else if size > ISIZE_MAX then Err(CapacityOverflow)
      else if |rest| < size then Err(UnexpectedEnd)
      else Decoded(Skip(rest[size..], 2), body + Lossy(rest[..size]))
  }

  /** Drop `n` bytes, or all there are. */
  function Skip(bs: seq<Byte>, n: nat): (r: seq<Byte>)
    ensures |r| <= |bs|
  {
    if |bs| < n then [] else bs[n..]
  }

  class Reader {
    var data: seq<Byte>

    constructor (bytes: seq<Byte>)
      ensures data == bytes
    {
      data := bytes;
    }

    method ReadLine() returns (r: Result<string, Error>)
      modifies this
      ensures data == old(data)[LineEnd(old(data))..]
      ensures r == match Decode(old(data)[..LineEnd(old(data))]) case Some(s) => Ok(s) case None => Err(LineNotText)
    {
      var n := LineEnd(data);
      var line := Decode(data[..n]);
      data := data[n..];
      match line
      case Some(s) => return Ok(s);
      case None => return Err(LineNotText);
    }

    /** Exactly `n` bytes; when there are fewer, they are used up and the read fails. */
    method ReadExact(n: nat) returns (r: Result<seq<Byte>, Error>)
      modifies this
      ensures data == Skip(old(data), n)
      ensures r == if |old(data)| < n then Err(UnexpectedEnd) else Ok(old(data)[..n])
    {
      if |data| < n {
        data := [];
        return Err(UnexpectedEnd);
      }
      var taken := data[..n];
      data := data[n..];
      return Ok(taken);
    }
  }

  method ReadChunked(reader: Reader) returns (r: Result<string, Error>)
    modifies reader
    ensures r == Decoded(old(reader.data), "")
  {
    var body := "";
    while true
      invariant Decoded(reader.data, body) == Decoded(old(reader.data), "")
      decreases |reader.data|
    {
      var sizeLine := reader.ReadLine();
      if sizeLine.Err? {
        return Err(sizeLine.error);
      }
      var size := SizeOf(sizeLine.value);
      if size == 0 {
        break;
      }
      if size > ISIZE_MAX {
        return Err(CapacityOverflow);
      }
      var buf := reader.ReadExact(size);
      if buf.Err? {
        return Err(buf.error);
      }
      body := body + Lossy(buf.value);
      var _ := reader.ReadExact(2);
    }
    return Ok(body);
  }

  // ---- what a sender puts on the wire ----

  /**
    A chunk: the digits its sender wrote for its length, any extension, and its bytes, which may end inside a
    character.
  */
  datatype Chunk = Chunk(digits: string, ext: Option<string>, data: seq<Byte>)

  const LOWER: string := "0123456789abcdef"
  const UPPER: string := "0123456789ABCDEF"

  /** `s` writes `n` in hexadecimal, its last digit being `n % 16`, in either case and with any leading zeros. */
  predicate Writes(s: string, n: nat)
    decreases |s|
  {
    var k := |s| - 1;
    && s != "" && (s[k] == LOWER[n % 16] || s[k] == UPPER[n % 16])
    && if k == 0 then n < 16 else Writes(s[..k], n / 16)
  }

  /** Section 7.1.1 of RFC 9112: a semicolon and what it introduces, with blanks allowed before it. */
  ghost predicate IsExtension(s: string) {
    '\n' !in s && exists k: nat :: k < |s| && s[k] == ';' && forall j :: 0 <= j < k ==> s[j] == ' ' || s[j] == '\t'
  }

  function SizeLine(digits: string, ext: Option<string>): string {
    match ext case Some(e) => digits + e case None => digits
  }

  ghost predicate WellFormed(c: Chunk) {
    && Writes(c.digits, |c.data|) && (c.ext.Some? ==> IsExtension(c.ext.value))
    && 0 < |c.data| <= ISIZE_MAX
  }

  const CRLF: seq<Byte> := [13, 10]

  function ChunkOnWire(c: Chunk): seq<Byte> {
    Encode(SizeLine(c.digits, c.ext)) + CRLF + c.data + CRLF
  }

  function ChunksOnWire(cs: seq<Chunk>): seq<Byte> {
    if cs == [] then [] else ChunkOnWire(cs[0]) + ChunksOnWire(cs[1..])
  }

  /** The bytes sent, and what is read of them when each chunk is read by itself. */
  function Data(cs: seq<Chunk>): seq<Byte> {
    if cs == [] then [] else cs[0].data + Data(cs[1..])
  }

  function Text(cs: seq<Chunk>): string {
    if cs == [] then "" else Lossy(cs[0].data) + Text(cs[1..])
  }

  // ---- decoding what was sent ----

  ghost predicate IsNumeral(s: string) { s != "" && forall c :: c in s ==> IsHex(c) }

  lemma DigitIsRead(c: char, d: nat)
    requires d < 16 && (c == LOWER[d] || c == UPPER[d])
    ensures IsHex(c) && HexDigit(c) == d
  {
    assert LOWER == ['0', '1', '2', '3', '4', '5', '6', '7', '8', '9', 'a', 'b', 'c', 'd', 'e', 'f'];
    assert UPPER == ['0', '1', '2', '3', '4', '5', '6', '7', '8', '9', 'A', 'B', 'C', 'D', 'E', 'F'];
  }

  lemma {:induction false} WrittenIsNumeral(s: string, n: nat)
    requires Writes(s, n)
    ensures IsNumeral(s)
    decreases |s|
  {
    DigitIsRead(s[|s| - 1], n % 16);
    if |s| > 1 { WrittenIsNumeral(s[..|s| - 1], n / 16); }
    assert s == s[..|s| - 1] + [s[|s| - 1]];
  }

  /** Parsing one more digit. */
  lemma {:induction false} ParseOneMore(s: string, c: char, acc: nat)
    ensures ParseDigits(s + [c], acc) ==
            match ParseDigits(s, acc)
            case None => None
            case Some(v) =>
              if !IsHex(c) || v * 16 + HexDigit(c) > USIZE_MAX then None else Some(v * 16 + HexDigit(c))
  {
    if s == "" {
      assert (s + [c])[1..] == "";
    } else {
      assert (s + [c])[1..] == s[1..] + [c];
      if IsHex(s[0]) && acc * 16 + HexDigit(s[0]) <= USIZE_MAX {
        ParseOneMore(s[1..], c, acc * 16 + HexDigit(s[0]));
      }
    }
  }

  lemma {:induction false} ParseOfWritten(s: string, n: nat)
    requires Writes(s, n)
    ensures ParseDigits(s, 0) == if n <= USIZE_MAX then Some(n) else None
    decreases |s|
  {
    var k := |s| - 1;
    DigitIsRead(s[k], n % 16);
    ParseOneMore(s[..k], s[k], 0);
    assert s == s[..k] + [s[k]];
    if k > 0 { ParseOfWritten(s[..k], n / 16); }
  }

  /** Every number can be written. */
  lemma {:induction false} EveryNumberIsWritten(n: nat) returns (s: string)
    ensures Writes(s, n)
  {
    if n < 16 {
      s := [LOWER[n]];
    } else {
      var front := EveryNumberIsWritten(n / 16);
      s := front + [LOWER[n % 16]];
      assert s[..|s| - 1] == front;
    }
  }

  lemma TrimOfLine(s: string)
    requires IsNumeral(s)
    ensures Trim(s + "\r\n") == s
  {
    var line := s + "\r\n";
    assert line[0] in s && TrimStart(line) == line;
    assert line[..|line| - 1] == s + "\r" && (s + "\r")[..|s|] == s;
    assert TrimEnd(s + "\r") == TrimEnd(s);
    assert s[|s| - 1] in s;
  }

  lemma {:induction false} LineEndAt(front: seq<Byte>, rest: seq<Byte>)
    requires 10 !in front
    ensures LineEnd(front + [10] + rest) == |front| + 1
  {
    if front != [] {
      assert (front + [10] + rest)[1..] == front[1..] + [10] + rest;
      LineEndAt(front[1..], rest);
    }
  }

  /** A line and what follows it are read as that line. */
  lemma LineIsRead(line: string, rest: seq<Byte>)
    requires '\n' !in line
    ensures var bs := Encode(line) + CRLF + rest;
            && LineEnd(bs) == |Encode(line)| + 2
            && Decode(bs[..LineEnd(bs)]) == Some(line + "\r\n")
            && bs[LineEnd(bs)..] == rest
  {
    var bs, front := Encode(line) + CRLF + rest, Encode(line) + [13];
    LineFeedOnlyFromItself(line);
    assert bs == front + [10] + rest;
    LineEndAt(front, rest);
    EncodeConcat(line, "\r\n");
    CrlfEncoded();
    assert bs[..|front| + 1] == Encode(line + "\r\n");
    DecodeOfEncode(line + "\r\n");
  }

  lemma CrlfEncoded()
    ensures Encode("\r\n") == CRLF
  {
    assert "\r\n"[1..] == "\n" && "\n"[1..] == "";
    assert Encode("\n") == [10];
  }

  /**
    A line that announces the length of the data after it makes the decoder take that data and the line end
    after it.
  */
  lemma DataIsRead(line: string, data: seq<Byte>, rest: seq<Byte>, body: string)
    requires '\n' !in line && 0 < SizeOf(line + "\r\n") == |data| <= ISIZE_MAX
    ensures Decoded(Encode(line) + CRLF + (data + CRLF + rest), body) == Decoded(rest, body + Lossy(data))
  {
    var after := data + CRLF + rest;
    LineIsRead(line, after);
    assert after[..|data|] == data && after[|data|..] == CRLF + rest;
    assert Skip(CRLF + rest, 2) == rest;
  }

  /**
    A size line gives the number written on it, with or without a plus sign before it. One too great for a
    machine word counts as zero.
  */
  lemma WrittenIsSize(digits: string, n: nat)
    requires Writes(digits, n)
    ensures SizeOf(digits + "\r\n") == (if n <= USIZE_MAX then n else 0)
    ensures SizeOf("+" + digits + "\r\n") == (if n <= USIZE_MAX then n else 0)
  {
    WrittenIsNumeral(digits, n);
    NumeralHasNo(digits);
    TrimOfLine(digits);
    ParseOfWritten(digits, n);
    PlusIsKept(digits);
  }

  function Power16(k: nat): nat { if k == 0 then 1 else 16 * Power16(k - 1) }

  /** Sixteen digits always fit a machine word and fill it, and half of that is the largest buffer. */
  lemma {:induction false} SixteenDigitsFit(s: string, n: nat)
    requires Writes(s, n)
    ensures n < Power16(|s|)
    ensures Power16(16) == USIZE_MAX + 1 == 2 * (ISIZE_MAX + 1)
  {
    if |s| > 1 { SixteenDigitsFit(s[..|s| - 1], n / 16); }
  }

  lemma PlusIsKept(digits: string)
    requires IsNumeral(digits)
    ensures Trim("+" + digits + "\r\n") == "+" + digits && ("+" + digits)[1..] == digits
  {
    var line, s := "+" + digits + "\r\n", "+" + digits;
    assert line[0] == '+' && TrimStart(line) == line;
    assert line[..|line| - 1] == s + "\r" && (s + "\r")[..|s|] == s;
    assert TrimEnd(s + "\r") == TrimEnd(s);
    assert s[|s| - 1] == digits[|digits| - 1] && digits[|digits| - 1] in digits;
  }

  lemma OneChunk(c: Chunk, rest: seq<Byte>, body: string)
    requires WellFormed(c) && c.ext.None?
    ensures Decoded(ChunkOnWire(c) + rest, body) == Decoded(rest, body + Lossy(c.data))
  {
    WrittenIsNumeral(c.digits, |c.data|);
    NumeralHasNo(c.digits);
    WrittenIsSize(c.digits, |c.data|);
    DataIsRead(c.digits, c.data, rest, body);
    LineThenData(Encode(c.digits), c.data, rest);
  }

  lemma LineThenData(line: seq<Byte>, payload: seq<Byte>, rest: seq<Byte>)
    ensures line + CRLF + payload + CRLF + rest == line + CRLF + (payload + CRLF + rest)
  {}

  lemma NumeralHasNo(s: string)
    requires IsNumeral(s)
    ensures '\n' !in s && s[0] != '+'
  {
    assert s[0] in s;
  }

  /** A line that is not a positive number ends the body. */
  lemma LineStops(line: string, rest: seq<Byte>, body: string)
    requires '\n' !in line && SizeOf(line + "\r\n") == 0
    ensures Decoded(Encode(line) + CRLF + rest, body) == Ok(body)
  {
    LineIsRead(line, rest);
  }

  /** A size line that carries a chunk extension is not a number to this decoder. */
  lemma ExtendedLineIsNoNumber(digits: string, ext: string)
    requires IsNumeral(digits) && IsExtension(ext)
    ensures '\n' !in digits + ext && SizeOf(digits + ext + "\r\n") == 0
  {
    var full := digits + ext + "\r\n";
    NumeralHasNo(digits);
    assert full[0] == digits[0] && digits[0] in digits;
    var k: nat :| k < |ext| && ext[k] == ';' && forall j :: 0 <= j < k ==> ext[j] == ' ' || ext[j] == '\t';
    assert full[|digits| + k] == ';' && full[|digits|] == ext[0];
    TrimEndKeeps(full, |digits| + k);
    assert Trim(full)[0] == digits[0] && Trim(full)[|digits|] == ext[0];
    StopsAt(Trim(full), |digits|, 0);
  }

  ghost predicate Plain(cs: seq<Chunk>) { forall c :: c in cs ==> c.ext.None? }

  /** The chunks before the first one with an extension. */
  function BeforeExtension(cs: seq<Chunk>): seq<Chunk> {
    if cs == [] || cs[0].ext.Some? then [] else [cs[0]] + BeforeExtension(cs[1..])
  }

  /** Well-formed chunks are read one by one up to the first extension, which ends the body whatever follows. */
  lemma {:induction false} ChunksAreRead(cs: seq<Chunk>, rest: seq<Byte>, body: string)
    requires forall c :: c in cs ==> WellFormed(c)
    ensures Decoded(ChunksOnWire(cs) + rest, body) ==
            if Plain(cs) then Decoded(rest, body + Text(cs))
            else Ok(body + Text(BeforeExtension(cs)))
  {
    if cs == [] {
      assert ChunksOnWire(cs) + rest == rest;
      assert body + Text(cs) == body;
    } else {
      var c, after := cs[0], ChunksOnWire(cs[1..]) + rest;
      assert ChunksOnWire(cs) + rest == ChunkOnWire(c) + after;
      if c.ext.Some? {
        ExtendedChunkStops(c, after, body);
        assert body + Text([]) == body;
      } else {
        OneChunk(c, after, body);
        ChunksAreRead(cs[1..], rest, body + Lossy(c.data));
        PlainFirst(cs, body);
      }
    }
  }

  lemma ExtendedChunkStops(c: Chunk, rest: seq<Byte>, body: string)
    requires WellFormed(c) && c.ext.Some?
    ensures Decoded(ChunkOnWire(c) + rest, body) == Ok(body)
  {
    var line, after := c.digits + c.ext.value, c.data + CRLF + rest;
    assert ChunkOnWire(c) + rest == Encode(line) + CRLF + after;
    WrittenIsNumeral(c.digits, |c.data|);
    ExtendedLineIsNoNumber(c.digits, c.ext.value);
    LineStops(line, after, body);
  }

  lemma PlainFirst(cs: seq<Chunk>, body: string)
    requires cs != [] && cs[0].ext.None?
    ensures Plain(cs) <==> Plain(cs[1..])
    ensures body + Text(cs) == body + Lossy(cs[0].data) + Text(cs[1..])
    ensures body + Text(BeforeExtension(cs)) == body + Lossy(cs[0].data) + Text(BeforeExtension(cs[1..]))
  {
    var front := BeforeExtension(cs);
    assert front[0] == cs[0] && front[1..] == BeforeExtension(cs[1..]);
    AddText(body, Lossy(cs[0].data), Text(cs[1..]));
    AddText(body, Lossy(cs[0].data), Text(front[1..]));
  }

  lemma AddText(a: string, b: string, c: string)
    ensures a + b + c == a + (b + c)
  {}

  /** Whatever the last chunk's extension and the trailer: what is read are the chunks before the first extension. */
  lemma ReadUpToExtension(cs: seq<Chunk>, zeros: string, ext: Option<string>, trailer: seq<Byte>)
    requires forall c :: c in cs ==> WellFormed(c)
    requires Writes(zeros, 0) && (ext.Some? ==> IsExtension(ext.value))
    ensures Decoded(BodyOnWire(cs, zeros, ext, trailer), "") == Ok(Text(BeforeExtension(cs)))
  {
    var line := SizeLine(zeros, ext);
    LastLineIsZero(zeros, ext);
    ChunksAreRead(cs, Encode(line) + CRLF + trailer, "");
    PlainIsAllBefore(cs);
    NoTextBefore(Text(BeforeExtension(cs)));
    if Plain(cs) { LineStops(line, trailer, Text(cs)); }
  }

  lemma NoTextBefore(s: string)
    ensures "" + s == s
  {}

  lemma LastLineIsZero(zeros: string, ext: Option<string>)
    requires Writes(zeros, 0) && (ext.Some? ==> IsExtension(ext.value))
    ensures '\n' !in SizeLine(zeros, ext) && SizeOf(SizeLine(zeros, ext) + "\r\n") == 0
  {
    WrittenIsNumeral(zeros, 0);
    if ext.Some? {
      ExtendedLineIsNoNumber(zeros, ext.value);
    } else {
      NumeralHasNo(zeros);
      WrittenIsSize(zeros, 0);
    }
  }

  /** Chunks, the last chunk's size line, and what follows it. */
  function BodyOnWire(cs: seq<Chunk>, zeros: string, ext: Option<string>, trailer: seq<Byte>): seq<Byte> {
    ChunksOnWire(cs) + (Encode(SizeLine(zeros, ext)) + CRLF + trailer)
  }

  lemma {:induction false} PlainIsAllBefore(cs: seq<Chunk>)
    requires forall c :: c in cs ==> WellFormed(c)
    ensures forall c :: c in BeforeExtension(cs) ==> c in cs
    ensures Plain(cs) ==> BeforeExtension(cs) == cs
    ensures !Plain(cs) ==> |Data(BeforeExtension(cs))| < |Data(cs)|
  {
    if cs != [] {
      PlainIsAllBefore(cs[1..]);
      assert WellFormed(cs[0]);
      if cs[0].ext.None? { assert BeforeExtension(cs)[1..] == BeforeExtension(cs[1..]); }
    }
  }

  /**
    How a read fails: a chunk cut short is an error, and a size no buffer can have a panic. But input that just
    ends after some chunk, without the last one, is taken for a whole body.
  */
  lemma ReadsThatFail(cs: seq<Chunk>, digits: string, n: nat, rest: seq<Byte>)
    requires (forall c :: c in cs ==> WellFormed(c)) && Plain(cs) && Writes(digits, n) && 0 < n
    ensures var r := Decoded(ChunksOnWire(cs) + (Encode(digits) + CRLF + rest), "");
            && (ISIZE_MAX < n <= USIZE_MAX ==> r == Err(CapacityOverflow))
            && (n <= ISIZE_MAX && |rest| < n ==> r == Err(UnexpectedEnd))
            && (n > USIZE_MAX ==> r == Ok(Text(cs)))
    ensures Decoded(ChunksOnWire(cs), "") == Ok(Text(cs))
  {
    ChunksAreRead(cs, Encode(digits) + CRLF + rest, "");
    NoTextBefore(Text(cs));
    WrittenIsNumeral(digits, n);
    NumeralHasNo(digits);
    LineIsRead(digits, rest);
    WrittenIsSize(digits, n);
    ChunksAreRead(cs, [], "");
    assert ChunksOnWire(cs) + [] == ChunksOnWire(cs);
    NothingIsRead(Text(cs));
  }

  lemma NothingIsRead(body: string)
    ensures Decoded([], body) == Ok(body)
  {}

  /** A size line that is not UTF-8 fails the read, whatever came before. */
  lemma LineMustBeText(cs: seq<Chunk>, rest: seq<Byte>)
    requires (forall c :: c in cs ==> WellFormed(c)) && Plain(cs) && Decode(rest[..LineEnd(rest)]).None?
    ensures Decoded(ChunksOnWire(cs) + rest, "") == Err(LineNotText)
  {
    ChunksAreRead(cs, rest, "");
  }

  // ---- when the text comes back ----

  /** Chunks that each hold whole characters are read as the text their bytes encode. */
  lemma {:induction false} WholeChunksRead(cs: seq<Chunk>)
    requires forall c :: c in cs ==> Decode(c.data).Some?
    ensures Encode(Text(cs)) == Data(cs)
  {
    if cs != [] {
      assert cs[0] in cs;
      LossyOfText(cs[0].data);
      EncodeOfDecode(cs[0].data);
      EncodeConcat(Lossy(cs[0].data), Text(cs[1..]));
      WholeChunksRead(cs[1..]);
    }
  }

  /** A text cut into chunks none of which starts inside a character is cut into whole characters. */
  lemma {:induction false} CutsBetween(cs: seq<Chunk>, text: string)
    requires Data(cs) == Encode(text) && forall c :: c in cs ==> c.data != [] && !StartsInside(c.data)
    ensures forall c :: c in cs ==> Decode(c.data).Some?
  {
    if cs != [] {
      var rest := Data(cs[1..]);
      if cs[1..] != [] { assert cs[1] in cs && rest[0] == cs[1].data[0]; }
      var k := CutBetweenCharacters(text, cs[0].data, rest);
      DecodeOfEncode(text[..k]);
      CutsBetween(cs[1..], text[k..]);
    }
  }

  /** Chunks that start inside a character make what is read longer than the text. */
  lemma {:induction false} CutsInsideLengthen(cs: seq<Chunk>)
    ensures |Text(cs)| >= Starts(Data(cs))
    ensures (exists c :: c in cs && StartsInside(c.data)) ==> |Text(cs)| > Starts(Data(cs))
  {
    if cs != [] {
      LossyIsLong(cs[0].data);
      StartsConcat(cs[0].data, Data(cs[1..]));
      CutsInsideLengthen(cs[1..]);
    }
  }

  lemma TextComesBack(cs: seq<Chunk>, text: string)
    requires Data(cs) == Encode(text) && forall c :: c in cs ==> c.data != []
    ensures Text(cs) == text <==> forall c :: c in cs ==> !StartsInside(c.data)
  {
    if forall c :: c in cs ==> !StartsInside(c.data) {
      CutsBetween(cs, text);
      WholeChunksRead(cs);
      DecodeOfEncode(Text(cs));
      DecodeOfEncode(text);
    } else {
      CutsInsideLengthen(cs);
      StartsOfText(text);
    }
  }

  /**
    A text sent in chunks without extensions, cut at any bytes, is read back exactly when no chunk starts inside
    a character, whatever the last chunk's extension and the trailer.
  */
  lemma ChunkedRoundTrip(cs: seq<Chunk>, text: string, zeros: string, ext: Option<string>, trailer: seq<Byte>)
    requires (forall c :: c in cs ==> WellFormed(c)) && Plain(cs) && Data(cs) == Encode(text)
    requires Writes(zeros, 0) && (ext.Some? ==> IsExtension(ext.value))
    ensures Decoded(BodyOnWire(cs, zeros, ext, trailer), "") == Ok(text) <==>
            forall c :: c in cs ==> !StartsInside(c.data)
  {
    ReadUpToExtension(cs, zeros, ext, trailer);
    PlainIsAllBefore(cs);
    TextComesBack(cs, text);
  }

  /**
    A text without U+FFFD is read back exactly when no chunk carries an extension and none starts inside a
    character. Otherwise nothing reports the loss.
  */
  lemma WholeBodyExactly(cs: seq<Chunk>, text: string, zeros: string, ext: Option<string>, trailer: seq<Byte>)
    requires (forall c :: c in cs ==> WellFormed(c)) && Data(cs) == Encode(text) && REPLACEMENT !in text
    requires Writes(zeros, 0) && (ext.Some? ==> IsExtension(ext.value))
    ensures Decoded(BodyOnWire(cs, zeros, ext, trailer), "") == Ok(text) <==>
            forall c :: c in cs ==> c.ext.None? && !StartsInside(c.data)
    ensures Decoded(BodyOnWire(cs, zeros, ext, trailer), "").Ok?
  {
    ReadUpToExtension(cs, zeros, ext, trailer);
    if Plain(cs) {
      ChunkedRoundTrip(cs, text, zeros, ext, trailer);
    } else {
      CutShortIsNotText(cs, text);
    }
  }

  lemma CutShortIsNotText(cs: seq<Chunk>, text: string)
    requires (forall c :: c in cs ==> WellFormed(c)) && Data(cs) == Encode(text) && REPLACEMENT !in text && !Plain(cs)
    ensures Text(BeforeExtension(cs)) != text
  {
    var front := BeforeExtension(cs);
    PlainIsAllBefore(cs);
    if c :| c in front && Decode(c.data).None? {
      LossyMarksLoss(c.data);
      TextHolds(front, c);
    } else {
      WholeChunksRead(front);
    }
  }

  lemma {:induction false} TextHolds(cs: seq<Chunk>, c: Chunk)
    requires c in cs
    ensures forall x :: x in Lossy(c.data) ==> x in Text(cs)
  {
    if c != cs[0] { TextHolds(cs[1..], c); }
  }

  // ---- two bodies that lose or seem to keep a character ----

  lemma SmallNumbers()
    ensures Writes("0", 0) && Writes("1", 1) && Writes("2", 2)
  {}

  lemma Pair(a: Chunk, b: Chunk)
    ensures Data([a, b]) == a.data + b.data && Text([a, b]) == Lossy(a.data) + Lossy(b.data)
    ensures a.ext.None? && b.ext.None? ==> BeforeExtension([a, b]) == [a, b]
    ensures a.ext.None? && b.ext.Some? ==> BeforeExtension([a, b]) == [a] && Text([a]) == Lossy(a.data)
  {
    assert [a, b][1..] == [b] && [b][1..] == [] && [a][1..] == [];
    assert Data([b]) == b.data && Text([b]) == Lossy(b.data) && Text([a]) == Lossy(a.data) + Text([]);
    assert BeforeExtension([b]) == if b.ext.Some? then [] else [b] + BeforeExtension([]);
  }

  lemma OneCharacter(c: char)
    ensures Encode([c]) == EncodeChar(c)
  {
    assert [c][1..] == "";
  }

  const E_ACUTE: char := '\U{E9}'

  lemma CutLetter()
    ensures [0xC3] + [0xA9] == Encode([E_ACUTE])
    ensures Lossy([0xC3]) + Lossy([0xA9]) == [REPLACEMENT, REPLACEMENT]
  {
    OneCharacter(E_ACUTE);
    assert Lossy([0xC3]) == [REPLACEMENT] && Lossy([0xA9]) == [REPLACEMENT];
  }

  /** One letter of two bytes, sent a byte a chunk, is read as two replacement characters. */
  lemma SplitCharacterIsLost(trailer: seq<Byte>)
    ensures var a, b := Chunk("1", None, [0xC3]), Chunk("1", None, [0xA9]);
            && Data([a, b]) == Encode([E_ACUTE])
            && Decoded(BodyOnWire([a, b], "0", None, trailer), "") == Ok([REPLACEMENT, REPLACEMENT])
  {
    var a, b := Chunk("1", None, [0xC3]), Chunk("1", None, [0xA9]);
    Pair(a, b);
    CutLetter();
    SmallNumbers();
    ReadUpToExtension([a, b], "0", None, trailer);
  }

  lemma CutReplacement()
    ensures [0xEF, 0xBF] + [0xBD] == Encode([REPLACEMENT]) && Lossy([0xEF, 0xBF]) == [REPLACEMENT]
  {
    OneCharacter(REPLACEMENT);
  }

  /** Why U+FFFD is set apart: cut inside one, with the rest dropped, the replacement stands for the original. */
  lemma ReplacementByChance(trailer: seq<Byte>)
    ensures var a, b := Chunk("2", None, [0xEF, 0xBF]), Chunk("1", Some(";"), [0xBD]);
            && Data([a, b]) == Encode([REPLACEMENT])
            && Decoded(BodyOnWire([a, b], "0", None, trailer), "") == Ok([REPLACEMENT])
  {
    var a, b := Chunk("2", None, [0xEF, 0xBF]), Chunk("1", Some(";"), [0xBD]);
    Pair(a, b);
    CutReplacement();
    SmallNumbers();
    assert ";"[0] == ';' && IsExtension(";");
    ReadUpToExtension([a, b], "0", None, trailer);
  }

  lemma {:induction false} TrimEndKeeps(s: string, k: nat)
    requires k < |s| && !IsWhitespace(s[k])
    ensures k < |TrimEnd(s)| <= |s| && TrimEnd(s) == s[..|TrimEnd(s)|]
  {
    if IsWhitespace(s[|s| - 1]) { TrimEndKeeps(s[..|s| - 1], k); }
  }

  lemma {:induction false} StopsAt(s: string, k: nat, acc: nat)
    requires k < |s| && !IsHex(s[k])
    ensures ParseDigits(s, acc).None?
    decreases k
  {
    if k > 0 && IsHex(s[0]) { StopsAt(s[1..], k - 1, acc * 16 + HexDigit(s[0])); }
  }
}
