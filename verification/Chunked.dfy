/** The chunked body reader (validator/proxy_probe.py) against the grammar of
    section 7.1 of RFC 9112. */
module Chunked {
  import opened Prelude
  import opened Streams

  const MAX_HTTP_BODY_BYTES := 262144
  const SEMICOLON: byte := 59

  // ---------- `int(line.split(b";", 1)[0].strip(), 16)` ----------

  predicate IsSpace(b: byte) { b == 32 || 9 <= b <= 13 }

  function BeforeSemicolon(s: bytes): bytes {
    if s == [] || s[0] == SEMICOLON then [] else [s[0]] + BeforeSemicolon(s[1..])
  }

  predicate IsHex(b: byte) { 48 <= b <= 57 || 65 <= b <= 70 || 97 <= b <= 102 }

  function HexDigit(b: byte): nat
    requires IsHex(b)
  {
    if b <= 57 then (b - 48) as nat else if b <= 70 then (b - 55) as nat else (b - 87) as nat
  }

  // Hexadecimal digits with single underscores between them.
  function HexNumber(s: bytes): Option<nat> {
    if s == [] || !IsHex(s[|s| - 1]) then None
    else if |s| == 1 then Some(HexDigit(s[0]))
    else
      match HexNumber(if s[|s| - 2] == 95 then s[..|s| - 2] else s[..|s| - 1])
      case None => None
      case Some(n) => Some(16 * n + HexDigit(s[|s| - 1]))
  }

  // An optional 0x, after which one underscore is allowed too.
  function AfterPrefix(s: bytes): bytes {
    if |s| >= 2 && s[0] == 48 && (s[1] == 120 || s[1] == 88) then
      (if |s| >= 3 && s[2] == 95 then s[3..] else s[2..])
    else s
  }

  function ParseHex(s: bytes): Option<int> {
    var t := StripBoth(s, IsSpace);
    if t != [] && (t[0] == 43 || t[0] == 45) then
      (match HexNumber(AfterPrefix(t[1..]))
       case None => None
       case Some(n) => Some(if t[0] == 45 then -(n as int) else n))
    else (match HexNumber(AfterPrefix(t)) case None => None case Some(n) => Some(n))
  }

  function SizeOf(line: bytes): Option<int> { ParseHex(BeforeSemicolon(line)) }

  // ---------- The reader ----------

  // One chunk read from `s`: None at the last chunk, otherwise its data and the rest.
  function ReadChunk(s: bytes, have: nat): Result<(Option<bytes>, bytes)> {
    var n := LineLength(s);
    var rest := s[n..];
    match SizeOf(s[..n])
    case None => Err(OSError)
    case Some(size) =>
      if size == 0 then
        (match ThroughCrlf(rest) case None => Err(IncompleteRead) case Some(k) => Ok((None, rest[k..])))
      else if have + size > MAX_HTTP_BODY_BYTES then Err(OSError)
      else
        match Exactly(rest, size)
        case Err(e) => Err(e)
        case Ok((data, tail)) =>
          match Exactly(tail, 2)
          case Err(e) => Err(e)
          case Ok((end, tail')) => if end == CRLF then Ok((Some(data), tail')) else Err(OSError)
  }

  lemma ReadChunkShrinks(s: bytes, have: nat)
    requires ReadChunk(s, have).Ok?
    ensures |ReadChunk(s, have).value.1| < |s|
  {
  }

  // The body and what is left in the stream.
  function ReadBody(s: bytes, body: bytes): Result<(bytes, bytes)>
    decreases |s|
  {
    match ReadChunk(s, |body|)
    case Err(e) => Err(e)
    case Ok((None, rest)) => Ok((body, rest))
    case Ok((Some(data), rest)) =>
      ReadChunkShrinks(s, |body|);
      ReadBody(rest, body + data)
  }

  method ReadChunked(reader: Connection) returns (r: Result<bytes>)
    modifies reader
    ensures match ReadBody(old(reader.inbox), [])
      case Ok((body, rest)) => r == Ok(body) && reader.inbox == rest
      case Err(e) => r == Err(e)
    ensures reader.outbox == old(reader.outbox)
  {
    var body: bytes := [];
    while true
      invariant ReadBody(old(reader.inbox), []) == ReadBody(reader.inbox, body)
      invariant reader.outbox == old(reader.outbox)
      decreases |reader.inbox|
    {
      ghost var before := reader.inbox;
      var line := reader.ReadLine();
      var parsed := SizeOf(line);
      if parsed.None? { return Err(OSError); }
      var size := parsed.value;
      if size == 0 {
        var end := reader.ReadUntilCrlf();
        if end.Err? { return Err(end.error); }
        return Ok(body);
      }
      if |body| + size > MAX_HTTP_BODY_BYTES { return Err(OSError); }
      var data := reader.ReadExactly(size);
      if data.Err? { return Err(data.error); }
      var delimiter := reader.ReadExactly(2);
      if delimiter.Err? { return Err(delimiter.error); }
      if delimiter.value != CRLF { return Err(OSError); }
      body := body + data.value;
    }
  }

  // ---------- What it accepts ----------

  /** The bound: no accepted body is longer than 256 KiB. */
  lemma {:induction false} BodyIsBounded(s: bytes, body: bytes)
    requires |body| <= 256 * 1024 && ReadBody(s, body).Ok?
    ensures |ReadBody(s, body).value.0| <= 256 * 1024
    decreases |s|
  {
    match ReadChunk(s, |body|).value
    case (None, rest) =>
    case (Some(data), rest) =>
      ReadChunkShrinks(s, |body|);
      BodyIsBounded(rest, body + data);
  }

  lemma {:induction false} LineLengthExtends(s: bytes, t: bytes)
    requires LineLength(s) < |s|
    ensures LineLength(s + t) == LineLength(s)
  {
    if s[0] != LF {
      assert (s + t)[1..] == s[1..] + t;
      LineLengthExtends(s[1..], t);
    }
  }

  lemma {:induction false} ThroughCrlfExtends(s: bytes, t: bytes)
    requires ThroughCrlf(s).Some?
    ensures ThroughCrlf(s + t) == ThroughCrlf(s)
  {
    assert (s + t)[..2] == s[..2];
    if s[..2] != CRLF {
      assert (s + t)[1..] == s[1..] + t;
      ThroughCrlfExtends(s[1..], t);
    }
  }

  lemma ExactlyExtends(s: bytes, t: bytes, n: int)
    requires Exactly(s, n).Ok?
    ensures Exactly(s + t, n) == Ok((Exactly(s, n).value.0, Exactly(s, n).value.1 + t))
  {
    assert (s + t)[..n] == s[..n] && (s + t)[n..] == s[n..] + t;
  }

  lemma ReadChunkExtends(s: bytes, t: bytes, have: nat)
    requires ReadChunk(s, have).Ok?
    ensures ReadChunk(s + t, have) == Ok((ReadChunk(s, have).value.0, ReadChunk(s, have).value.1 + t))
  {
    var n := LineLength(s);
    LineLengthExtends(s, t);
    var rest, size := s[n..], SizeOf(s[..n]).value;
    ExactlyExtends(s, t, n);
    if size == 0 {
      ThroughCrlfExtends(rest, t);
      ExactlyExtends(rest, t, ThroughCrlf(rest).value);
    } else {
      ExactlyExtends(rest, t, size);
      ExactlyExtends(rest[size..], t, 2);
    }
  }

  /** It never looks past what it consumes: bytes that follow change nothing and
      are all still there. */
  lemma {:induction false} FollowingBytesAreUntouched(s: bytes, t: bytes, body: bytes)
    requires ReadBody(s, body).Ok?
    ensures ReadBody(s + t, body) == Ok((ReadBody(s, body).value.0, ReadBody(s, body).value.1 + t))
    decreases |s|
  {
    ReadChunkExtends(s, t, |body|);
    match ReadChunk(s, |body|).value
    case (None, rest) =>
    case (Some(data), rest) =>
      ReadChunkShrinks(s, |body|);
      FollowingBytesAreUntouched(rest, t, body + data);
  }

  // ---------- What it can have read ----------

  // Up to and including the first line feed.
  predicate IsLine(l: bytes) { l != [] && l[|l| - 1] == LF && LF !in l[..|l| - 1] }

  predicate CrlfAt(t: bytes, i: nat)
    requires i + 1 < |t|
  {
    t[i] == CR && t[i + 1] == LF
  }

  // Up to and including the first CRLF.
  predicate EndsAtCrlf(t: bytes) {
    |t| >= 2 && CrlfAt(t, |t| - 2) && forall i {:trigger CrlfAt(t, i)} :: 0 <= i < |t| - 2 ==> !CrlfAt(t, i)
  }

  datatype Piece = Piece(line: bytes, data: bytes)

  predicate GoodPiece(p: Piece) { IsLine(p.line) && p.data != [] && SizeOf(p.line) == Some(|p.data|) }

  function Joined(pieces: seq<Piece>): bytes {
    if pieces == [] then [] else pieces[0].line + pieces[0].data + CRLF + Joined(pieces[1..])
  }

  function DataOf(pieces: seq<Piece>): bytes {
    if pieces == [] then [] else pieces[0].data + DataOf(pieces[1..])
  }

  lemma {:induction false} LineIsFirst(s: bytes)
    requires LineLength(s) < |s|
    ensures IsLine(s[..LineLength(s)])
  {
    if s[0] != LF {
      LineIsFirst(s[1..]);
      var n := LineLength(s);
      assert s[..n] == [s[0]] + s[1..][..n - 1];
      assert s[..n][..n - 1] == [s[0]] + s[1..][..n - 1][..n - 2];
    } else {
      assert s[..1][..0] == [];
    }
  }

  lemma {:induction false} CrlfIsFirst(s: bytes)
    requires ThroughCrlf(s).Some?
    ensures EndsAtCrlf(s[..ThroughCrlf(s).value])
  {
    var n := ThroughCrlf(s).value;
    var t := s[..n];
    if s[..2] == CRLF {
      assert s[0] == s[..2][0] && s[1] == s[..2][1];
    } else {
      assert !CrlfAt(s, 0) by { assert s[..2] == [s[0], s[1]]; }
      CrlfIsFirst(s[1..]);
      CrlfInFront(s[0], s[1..][..n - 1]);
      assert t == [s[0]] + s[1..][..n - 1];
    }
  }

  lemma CrlfInFront(b: byte, t: bytes)
    requires EndsAtCrlf(t) && !(b == CR && t[0] == LF)
    ensures EndsAtCrlf([b] + t)
  {
    var u := [b] + t;
    assert CrlfAt(t, |t| - 2);
    forall i | 0 <= i < |u| - 2 ensures !CrlfAt(u, i) {
      if i > 0 { assert !CrlfAt(t, i - 1); }
    }
  }

  lemma ReadChunkReads(s: bytes, have: nat) returns (line: bytes, rest: bytes)
    requires ReadChunk(s, have).Ok?
    ensures IsLine(line) && s == line + rest && SizeOf(line).Some?
    ensures match ReadChunk(s, have).value
      case (None, tail) => SizeOf(line) == Some(0) && ThroughCrlf(rest).Some? && tail == rest[ThroughCrlf(rest).value..]
      case (Some(data), tail) => GoodPiece(Piece(line, data)) && rest == data + CRLF + tail
  {
    var n := LineLength(s);
    line, rest := s[..n], s[n..];
    assert rest != [];
    LineIsFirst(s);
    var size := SizeOf(line).value;
    if size != 0 { DelimiterIsCrlf(rest, size); }
  }

  lemma DelimiterIsCrlf(rest: bytes, size: int)
    requires Exactly(rest, size).Ok? && Exactly(rest[size..], 2).Ok? && Exactly(rest[size..], 2).value.0 == CRLF
    ensures rest == rest[..size] + CRLF + rest[size..][2..] && |rest[..size]| == size
  {
    var tail := rest[size..];
    assert tail == tail[..2] + tail[2..];
    Associates(rest[..size], CRLF, tail[2..]);
  }

  /** Acceptance is justified: whatever the reader accepts begins with well-formed chunks whose
      data is the body, each with its size line before and CRLF behind, then a size line of zero
      and everything up to the next CRLF. */
  lemma {:induction false} AcceptedIsChunked(s: bytes, body: bytes)
    returns (pieces: seq<Piece>, last: bytes, trailer: bytes)
    requires ReadBody(s, body).Ok?
    ensures forall i :: 0 <= i < |pieces| ==> GoodPiece(pieces[i])
    ensures IsLine(last) && SizeOf(last) == Some(0) && EndsAtCrlf(trailer)
    ensures var (whole, rest) := ReadBody(s, body).value;
      s == Joined(pieces) + last + trailer + rest && whole == body + DataOf(pieces)
    decreases |s|
  {
    var line, rest := ReadChunkReads(s, |body|);
    match ReadChunk(s, |body|).value {
      case (None, tail) =>
        CrlfIsFirst(rest);
        pieces, last, trailer := [], line, rest[..ThroughCrlf(rest).value];
        assert tail == rest[ThroughCrlf(rest).value..];
        LastInFront(s, line, rest, trailer, tail, body);
      case (Some(data), tail) =>
        ReadChunkShrinks(s, |body|);
        var pieces';
        pieces', last, trailer := AcceptedIsChunked(tail, body + data);
        pieces := [Piece(line, data)] + pieces';
        PieceInFront(s, Piece(line, data), pieces', tail, last, trailer, body);
    }
  }

  lemma LastInFront(s: bytes, line: bytes, rest: bytes, trailer: bytes, tail: bytes, body: bytes)
    requires s == line + rest && rest == trailer + tail
    ensures s == Joined([]) + line + trailer + tail && body == body + DataOf([])
  {
  }

  lemma Regroup(front: bytes, j: bytes, last: bytes, trailer: bytes, rest: bytes)
    ensures front + (j + last + trailer + rest) == (front + j) + last + trailer + rest
  {
    Associates(front, j + last + trailer, rest);
    Associates(front, j + last, trailer);
    Associates(front, j, last);
  }

  lemma PieceInFront(s: bytes, p: Piece, pieces: seq<Piece>, tail: bytes, last: bytes, trailer: bytes, body: bytes)
    requires s == p.line + (p.data + CRLF + tail)
    requires ReadBody(tail, body + p.data).Ok?
    requires var (whole, rest) := ReadBody(tail, body + p.data).value;
      tail == Joined(pieces) + last + trailer + rest && whole == body + p.data + DataOf(pieces)
    ensures var (whole, rest) := ReadBody(tail, body + p.data).value;
      s == Joined([p] + pieces) + last + trailer + rest && whole == body + DataOf([p] + pieces)
  {
    var rest := ReadBody(tail, body + p.data).value.1;
    JoinedInFront(p, pieces);
    Associates(p.line, p.data + CRLF, tail);
    Associates(p.line, p.data, CRLF);
    Regroup(p.line + p.data + CRLF, Joined(pieces), last, trailer, rest);
    Associates(body, p.data, DataOf(pieces));
  }

  lemma JoinedInFront(p: Piece, pieces: seq<Piece>)
    ensures Joined([p] + pieces) == p.line + p.data + CRLF + Joined(pieces)
    ensures DataOf([p] + pieces) == p.data + DataOf(pieces)
  {
    assert ([p] + pieces)[1..] == pieces;
  }

  // ---------- The grammar ----------

  datatype Chunk = Chunk(size: bytes, ext: bytes, data: bytes)

  // The hexadecimal digits in order, small and capital.
  const SMALL: bytes := [48, 49, 50, 51, 52, 53, 54, 55, 56, 57, 97, 98, 99, 100, 101, 102]
  const CAPITAL: bytes := [48, 49, 50, 51, 52, 53, 54, 55, 56, 57, 65, 66, 67, 68, 69, 70]

  predicate Writes(b: byte, digit: nat) { digit < 16 && (b == SMALL[digit] || b == CAPITAL[digit]) }

  function Power16(k: nat): nat { if k == 0 then 1 else 16 * Power16(k - 1) }

  // The leftmost digit counts most.
  function PlaceValue(digits: seq<nat>): nat {
    if digits == [] then 0 else digits[0] * Power16(|digits| - 1) + PlaceValue(digits[1..])
  }

  ghost predicate WritesAll(s: bytes, digits: seq<nat>) {
    |s| == |digits| > 0 && forall i :: 0 <= i < |s| ==> Writes(s[i], digits[i])
  }

  // 1*HEXDIG: `s` is `n` in hexadecimal, in any letter case and with any leading zeros.
  ghost predicate Spells(s: bytes, n: nat) { exists digits :: WritesAll(s, digits) && PlaceValue(digits) == n }

  predicate IsBlank(b: byte) { b == 32 || b == 9 }

  // Nothing, or blanks and a semicolon, then anything without a line feed.
  predicate Extension(ext: bytes) {
    LF !in ext && (ext != [] ==> StartsExtension(ext))
  }

  predicate StartsExtension(ext: bytes) {
    ext != [] && (ext[0] == SEMICOLON || (IsBlank(ext[0]) && StartsExtension(ext[1..])))
  }

  ghost predicate GoodChunk(c: Chunk) { Spells(c.size, |c.data|) && c.data != [] && Extension(c.ext) }

  ghost predicate GoodLast(zeros: bytes, ext: bytes) { Spells(zeros, 0) && Extension(ext) }

  function SizeLine(size: bytes, ext: bytes): bytes { size + ext + CRLF }

  function EncodeChunk(c: Chunk): bytes { SizeLine(c.size, c.ext) + c.data + CRLF }

  // *chunk last-chunk CRLF, with an empty trailer section.
  function Encode(chunks: seq<Chunk>, zeros: bytes, ext: bytes): bytes {
    if chunks == [] then SizeLine(zeros, ext) + CRLF
    else EncodeChunk(chunks[0]) + Encode(chunks[1..], zeros, ext)
  }

  function Content(chunks: seq<Chunk>): bytes {
    if chunks == [] then [] else chunks[0].data + Content(chunks[1..])
  }

  lemma {:induction false} LineOf(a: bytes, t: bytes)
    requires LF !in a
    ensures LineLength(a + [LF] + t) == |a| + 1
  {
    if a == [] {
      assert (a + [LF] + t)[0] == LF;
    } else {
      assert a[0] in a && (a + [LF] + t)[1..] == a[1..] + [LF] + t;
      LineOf(a[1..], t);
    }
  }

  lemma {:induction false} BeforeSemicolonOf(a: bytes, t: bytes)
    requires SEMICOLON !in a
    ensures BeforeSemicolon(a + t) == a + BeforeSemicolon(t)
  {
    if a == [] {
      assert a + t == t;
    } else {
      assert a[0] in a && (a + t)[1..] == a[1..] + t;
      BeforeSemicolonOf(a[1..], t);
    }
  }

  // What the extension leaves before its semicolon is white space.
  lemma {:induction false} ExtensionIsStripped(ext: bytes)
    requires ext == [] || StartsExtension(ext)
    ensures forall i :: 0 <= i < |BeforeSemicolon(ext + CRLF)| ==> IsSpace(BeforeSemicolon(ext + CRLF)[i])
  {
    if ext == [] {
      assert ext + CRLF == [CR, LF] && CRLF[1..] == [LF] && CRLF[1..][1..] == [];
      assert BeforeSemicolon([LF]) == [LF] && BeforeSemicolon(CRLF) == [CR] + BeforeSemicolon(CRLF[1..]);
    } else if ext[0] != SEMICOLON {
      assert (ext + CRLF)[1..] == ext[1..] + CRLF;
      ExtensionIsStripped(ext[1..]);
    }
  }

  // ---------- Reading numbers ----------

  lemma {:induction false} LastDigitCountsOnce(digits: seq<nat>)
    requires digits != []
    ensures PlaceValue(digits) == 16 * PlaceValue(digits[..|digits| - 1]) + digits[|digits| - 1]
  {
    var k := |digits| - 1;
    if k > 0 {
      LastDigitCountsOnce(digits[1..]);
      assert digits[1..][..k - 1] == digits[..k][1..];
      assert digits[0] * Power16(k) == 16 * (digits[0] * Power16(k - 1));
    }
  }

  /** The reader's right-to-left conversion gives a digit string its place value. */
  lemma {:induction false} SpelledIsParsed(s: bytes, digits: seq<nat>)
    requires WritesAll(s, digits)
    ensures HexNumber(s) == Some(PlaceValue(digits))
  {
    var k := |s| - 1;
    LastDigitCountsOnce(digits);
    DigitIsRead(s[k], digits[k]);
    if k > 0 {
      DigitIsRead(s[k - 1], digits[k - 1]);
      SpelledIsParsed(s[..k], digits[..k]);
    } else {
      assert digits[..k] == [];
    }
  }

  lemma DigitIsRead(b: byte, digit: nat)
    requires Writes(b, digit)
    ensures IsHex(b) && HexDigit(b) == digit && b != 95
  {
  }

  // The shortest digits of a number.
  function DigitsOf(n: nat): seq<nat> { if n < 16 then [n] else DigitsOf(n / 16) + [n % 16] }

  function Print(digits: seq<nat>): bytes
    requires forall i :: 0 <= i < |digits| ==> digits[i] < 16
  {
    seq(|digits|, i requires 0 <= i < |digits| => SMALL[digits[i]])
  }

  /** Every length can be written. */
  lemma {:induction false} PrintSpells(n: nat)
    ensures DigitsOf(n) != [] && forall i :: 0 <= i < |DigitsOf(n)| ==> DigitsOf(n)[i] < 16
    ensures PlaceValue(DigitsOf(n)) == n && Spells(Print(DigitsOf(n)), n)
  {
    if n >= 16 {
      PrintSpells(n / 16);
      LastDigitCountsOnce(DigitsOf(n));
      assert DigitsOf(n)[..|DigitsOf(n)| - 1] == DigitsOf(n / 16);
    }
    assert WritesAll(Print(DigitsOf(n)), DigitsOf(n));
  }

  lemma HexIsPlain(size: bytes, n: nat)
    requires Spells(size, n)
    ensures size != [] && HexNumber(size) == Some(n)
    ensures SEMICOLON !in size && LF !in size && !IsSpace(size[0]) && !IsSpace(size[|size| - 1])
    ensures AfterPrefix(size) == size && size[0] != 43 && size[0] != 45
  {
    var digits :| WritesAll(size, digits) && PlaceValue(digits) == n;
    SpelledIsParsed(size, digits);
    forall i | 0 <= i < |size| ensures IsHex(size[i]) { DigitIsRead(size[i], digits[i]); }
  }

  lemma SizeLineParses(size: bytes, ext: bytes, n: nat)
    requires Spells(size, n) && Extension(ext)
    ensures SizeOf(SizeLine(size, ext)) == Some(n)
  {
    HexIsPlain(size, n);
    assert SizeLine(size, ext) == size + (ext + CRLF);
    BeforeSemicolonOf(size, ext + CRLF);
    ExtensionIsStripped(ext);
    var w := BeforeSemicolon(ext + CRLF);
    assert (size + w)[0] == size[0];
    StripRightOf(size, w, IsSpace);
  }

  lemma SizeLineIsALine(size: bytes, ext: bytes, n: nat, t: bytes)
    requires Spells(size, n) && Extension(ext)
    ensures var s := SizeLine(size, ext) + t;
      LineLength(s) == |SizeLine(size, ext)| && s[..LineLength(s)] == SizeLine(size, ext) && s[LineLength(s)..] == t
  {
    HexIsPlain(size, n);
    var a := size + ext + [CR];
    assert SizeLine(size, ext) + t == a + [LF] + t;
    LineOf(a, t);
  }

  lemma ReadsEncodedChunk(c: Chunk, t: bytes, have: nat)
    requires GoodChunk(c)
    ensures ReadChunk(EncodeChunk(c) + t, have)
         == if have + |c.data| > 256 * 1024 then Err(OSError) else Ok((Some(c.data), t))
  {
    var rest := c.data + CRLF + t;
    assert EncodeChunk(c) + t == SizeLine(c.size, c.ext) + rest;
    SizeLineIsALine(c.size, c.ext, |c.data|, rest);
    SizeLineParses(c.size, c.ext, |c.data|);
    ExactlyPrefix(c.data, CRLF + t);
    Associates(c.data, CRLF, t);
    ExactlyPrefix(CRLF, t);
  }

  lemma ReadsLastChunk(zeros: bytes, ext: bytes, t: bytes, have: nat)
    requires GoodLast(zeros, ext)
    ensures ReadChunk(SizeLine(zeros, ext) + CRLF + t, have) == Ok((None, t))
  {
    assert SizeLine(zeros, ext) + CRLF + t == SizeLine(zeros, ext) + (CRLF + t);
    SizeLineIsALine(zeros, ext, 0, CRLF + t);
    SizeLineParses(zeros, ext, 0);
    assert (CRLF + t)[..2] == CRLF && (CRLF + t)[2..] == t;
  }

  lemma BodyAfterChunk(c: Chunk, t: bytes, body: bytes)
    requires GoodChunk(c)
    ensures ReadBody(EncodeChunk(c) + t, body)
         == if |body| + |c.data| > 256 * 1024 then Err(OSError) else ReadBody(t, body + c.data)
  {
    ReadsEncodedChunk(c, t, |body|);
  }

  lemma BodyAfterLast(zeros: bytes, ext: bytes, t: bytes, body: bytes)
    requires GoodLast(zeros, ext)
    ensures ReadBody(Encode([], zeros, ext) + t, body) == Ok((body, t))
  {
    ReadsLastChunk(zeros, ext, t, |body|);
  }

  lemma EncodingStep(chunks: seq<Chunk>, zeros: bytes, ext: bytes, t: bytes, body: bytes)
    requires chunks != []
    ensures Encode(chunks, zeros, ext) + t == EncodeChunk(chunks[0]) + (Encode(chunks[1..], zeros, ext) + t)
    ensures body + Content(chunks) == body + chunks[0].data + Content(chunks[1..])
  {
  }

  /** Inversion: for every chunked encoding, however segmented and whatever its
      extensions, followed by anything, the reader returns the content and leaves
      exactly what follows if the content fits in 256 KiB, and fails otherwise. */
  lemma {:induction false} ReaderInvertsEncoding(chunks: seq<Chunk>, zeros: bytes, ext: bytes, t: bytes, body: bytes)
    requires (forall i :: 0 <= i < |chunks| ==> GoodChunk(chunks[i])) && GoodLast(zeros, ext)
    requires |body| <= 256 * 1024
    ensures ReadBody(Encode(chunks, zeros, ext) + t, body)
         == if |body| + |Content(chunks)| <= 256 * 1024 then Ok((body + Content(chunks), t)) else Err(OSError)
    decreases |chunks|
  {
    if chunks == [] {
      BodyAfterLast(zeros, ext, t, body);
      assert body + Content(chunks) == body;
    } else {
      var c := chunks[0];
      EncodingStep(chunks, zeros, ext, t, body);
      BodyAfterChunk(c, Encode(chunks[1..], zeros, ext) + t, body);
      if |body| + |c.data| <= 256 * 1024 {
        ReaderInvertsEncoding(chunks[1..], zeros, ext, t, body + c.data);
      }
    }
  }
}
