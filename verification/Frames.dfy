/**
 Reply frames between the source helper process and its parent: the printer
 (src/parishkit/parishsoft_http_worker.py, `serve`) and the incremental reader
 (src/parishkit/parishsoft_transport.py, `_parse_header` and `exchange`).
 */
module Frames {
  import opened Arithmetic
  import opened Results

  type Byte = b: int | 0 <= b < 256
  type Bytes = seq<Byte>

  const NEWLINE: Byte := 10
  const SPACE: Byte := 32
  const ZERO: Byte := 48
  const MAX_HEADER_BYTES := 32
  const MAX_RESPONSE_BYTES := 8 * 1024 * 1024
  const INVALID_LINE: Bytes := [73, 78, 86, 65, 76, 73, 68]

  datatype Error =
    | InvalidResponse  // InvalidSourceResponse: a body-contract failure, never retried
    | BadFrame         // SourceTransportError: garbled reply, dead pipe
    | Timeout          // SourceTransportTimeout
    | LostOwnership    // whatever the owner's check raised

  // ----- decimal numerals -----

  predicate IsDigit(b: Byte) { ZERO <= b < ZERO + 10 }

  /** `%d` of a natural number. */
  function Digits(n: nat): Bytes {
    if n < 10 then [ZERO + n] else Digits(n / 10) + [ZERO + n % 10]
  }

  predicate AllDigits(d: Bytes) {
    forall i :: 0 <= i < |d| ==> IsDigit(d[i])
  }

  /** `0|[1-9][0-9]*` */
  predicate IsNumeral(d: Bytes) {
    AllDigits(d) && |d| >= 1 && (d[0] == ZERO ==> |d| == 1)
  }

  /** `int` of a string of digits. */
  function Number(d: Bytes): nat
    requires AllDigits(d)
  {
    if d == [] then 0 else 10 * Number(d[..|d| - 1]) + (d[|d| - 1] - ZERO)
  }

  lemma {:induction false} NumberOfDigits(n: nat)
    ensures IsNumeral(Digits(n)) && Number(Digits(n)) == n && (n >= 1 ==> Digits(n)[0] != ZERO)
  {
    if n < 10 {
      assert Number([]) == 0;
      assert Digits(n)[..0] == [];
    } else {
      NumberOfDigits(n / 10);
      assert Digits(n)[..|Digits(n)| - 1] == Digits(n / 10);
    }
  }

  lemma {:induction false} DigitsOfNumber(d: Bytes)
    requires IsNumeral(d)
    ensures Digits(Number(d)) == d && (|d| > 1 ==> Number(d) >= 10)
  {
    var n := |d| - 1;
    if n == 0 {
      assert Number(d[..0]) == 0;
    } else {
      assert d[..n][0] == d[0];
      DigitsOfNumber(d[..n]);
      assert d[..n] + [d[n]] == d;
      if n == 1 {
        assert Number(d[..1]) == d[0] - ZERO by { assert d[..1][..0] == []; }
      }
      assert Number(d) / 10 == Number(d[..n]) && Number(d) % 10 == d[n] - ZERO;
    }
  }

  lemma {:induction false} DigitsLength(n: nat, k: nat, bound: nat)
    requires 1 <= k && n < bound && bound == Power10(k)
    ensures |Digits(n)| <= k
    decreases k
  {
    if n >= 10 {
      DigitsLength(n / 10, k - 1, Power10(k - 1));
    }
  }

  function Power10(k: nat): nat {
    if k == 0 then 1 else 10 * Power10(k - 1)
  }

  // ----- the printer -----

  datatype Reply = Reply(status: nat, body: Bytes)

  /** What the helper can print: a three-digit status, and a body only for a success, within the bound. */
  predicate Printable(r: Reply) {
    100 <= r.status <= 999 && |r.body| <= MAX_RESPONSE_BYTES && (r.body != [] ==> 200 <= r.status < 300)
  }

  function Header(r: Reply): Bytes {
    Digits(r.status) + [SPACE] + Digits(|r.body|) + [NEWLINE]
  }

  function Print(r: Reply): Bytes {
    Header(r) + r.body
  }

  /** The form in which the reply is handed to the session. */
  function Handed(r: Reply): Bytes {
    Digits(r.status) + [NEWLINE] + r.body
  }

  // ----- the incremental reader -----

  /** The index of the first newline, or the length. */
  function LineEnd(s: Bytes): (n: nat)
    ensures n <= |s| && NEWLINE !in s[..n] && (n < |s| ==> s[n] == NEWLINE)
  {
    if s == [] || s[0] == NEWLINE then 0
    else
      var n := 1 + LineEnd(s[1..]);
      assert s[..n] == [s[0]] + s[1..][..n - 1];
      n
  }

  /** `([1-9][0-9]{2}) (0|[1-9][0-9]{0,8})` over the whole line. */
  predicate IsHeaderLine(line: Bytes) {
    && 5 <= |line| <= 13
    && AllDigits(line[..3]) && line[0] != ZERO
    && line[3] == SPACE
    && IsNumeral(line[4..])
  }

  /** `None` until the newline arrives; then the length expected and the bytes in handed form. */
  function ParseHeader(reply: Bytes): Result<Option<(nat, Bytes)>, Error> {
    var n := LineEnd(reply);
    if n == |reply| then
      if |reply| >= MAX_HEADER_BYTES then Err(BadFrame) else Ok(None)
    else
      var line, rest := reply[..n], reply[n + 1..];
      if line == INVALID_LINE then Err(InvalidResponse)
      else if !IsHeaderLine(line) then Err(BadFrame)
      else
        var status, size := Number(line[..3]), Number(line[4..]);
        if size > MAX_RESPONSE_BYTES then Err(InvalidResponse)
        else if size != 0 && !(200 <= status < 300) then Err(BadFrame)
        else Ok(Some((4 + size, line[..3] + [NEWLINE] + rest)))
  }

  /** Bytes still to write, bytes read in handed form, and the expected length once known. */
  datatype Exchange = Exchange(pending: Bytes, reply: Bytes, length: Option<nat>)

  /** The most bytes the next read may take. */
  function Want(e: Exchange): nat {
    Max(1, if e.length.None? then MAX_HEADER_BYTES - |e.reply| else e.length.value - |e.reply|)
  }

  function Absorb(e: Exchange, chunk: Bytes): Result<Exchange, Error> {
    var reply := e.reply + chunk;
    if e.length.Some? then
      if |reply| > e.length.value then Err(BadFrame) else Ok(e.(reply := reply))
    else
      var parsed :- ParseHeader(reply);
      if parsed.None? then Ok(e.(reply := reply))
      else if |parsed.value.1| > parsed.value.0 then Err(BadFrame)
      else Ok(e.(reply := parsed.value.1, length := Some(parsed.value.0)))
  }

  predicate Complete(e: Exchange) {
    e.length == Some(|e.reply|) && e.pending == []
  }

  // ----- what has been read -----

  /** The reader's state after exactly the bytes `read`. */
  ghost predicate Holding(e: Exchange, read: Bytes) {
    if e.length.None? then
      e.reply == read && NEWLINE !in read && |read| < MAX_HEADER_BYTES
    else
      var n := LineEnd(read);
      && n < |read| && IsHeaderLine(read[..n])
      && var size := Number(read[4..n]);
         && e.length == Some(4 + size) && size <= MAX_RESPONSE_BYTES
         && (size != 0 ==> 200 <= Number(read[..3]) < 300)
         && e.reply == read[..3] + [NEWLINE] + read[n + 1..] && |e.reply| <= 4 + size
  }

  lemma {:induction false} LineEndOfAppend(s: Bytes, t: Bytes)
    ensures LineEnd(s) < |s| ==> LineEnd(s + t) == LineEnd(s)
    ensures LineEnd(s) == |s| ==> LineEnd(s + t) == |s| + LineEnd(t)
  {
    if s == [] {
      assert s + t == t;
    } else {
      assert (s + t)[1..] == s[1..] + t;
      LineEndOfAppend(s[1..], t);
    }
  }

  lemma {:induction false} LineEndAt(s: Bytes, n: nat)
    requires n < |s| && s[n] == NEWLINE && NEWLINE !in s[..n]
    ensures LineEnd(s) == n
  {
    if n > 0 {
      assert s[..n][0] == s[0] && s[1..][..n - 1] == s[..n][1..];
      LineEndAt(s[1..], n - 1);
    }
  }

  lemma AbsorbBody(e: Exchange, read: Bytes, chunk: Bytes)
    requires Holding(e, read) && e.length.Some? && |e.reply + chunk| <= e.length.value
    ensures Holding(e.(reply := e.reply + chunk), read + chunk)
  {
    var all := read + chunk;
    var n := LineEnd(read);
    LineEndOfAppend(read, chunk);
    assert all[..n] == read[..n] && all[4..n] == read[4..n] && all[..3] == read[..3];
    assert all[n + 1..] == read[n + 1..] + chunk;
    assert e.reply + chunk == all[..3] + [NEWLINE] + all[n + 1..];
  }

  lemma ParsedHolds(e: Exchange, read: Bytes)
    requires ParseHeader(read).Ok? && ParseHeader(read).value.Some?
    requires |ParseHeader(read).value.value.1| <= ParseHeader(read).value.value.0
    ensures Holding(e.(reply := ParseHeader(read).value.value.1, length := Some(ParseHeader(read).value.value.0)), read)
  {
    var n := LineEnd(read);
    assert read[..n][..3] == read[..3] && read[..n][4..] == read[4..n];
  }

  /** Each successful read extends what is held by exactly the bytes it took. */
  lemma AbsorbHolds(e: Exchange, read: Bytes, chunk: Bytes)
    requires Holding(e, read) && Absorb(e, chunk).Ok?
    ensures Holding(Absorb(e, chunk).value, read + chunk) && Absorb(e, chunk).value.pending == e.pending
  {
    if e.length.Some? {
      AbsorbBody(e, read, chunk);
    } else if ParseHeader(read + chunk).value.Some? {
      ParsedHolds(e, read + chunk);
    }
  }

  /** A complete exchange has read exactly one printed frame, and holds that reply in handed form. */
  lemma CompleteIsOneFrame(e: Exchange, read: Bytes) returns (r: Reply)
    requires Holding(e, read) && Complete(e)
    ensures Printable(r) && read == Print(r) && e.reply == Handed(r)
  {
    var n := LineEnd(read);
    var line := read[..n];
    r := Reply(Number(read[..3]), read[n + 1..]);
    assert line[..3] == read[..3] && line[4..] == read[4..n];
    DigitsOfNumber(read[..3]);
    DigitsOfNumber(read[4..n]);
    assert |r.body| == Number(read[4..n]);
    StatusRange(read[..3]);
    hide Number, Digits;
    assert read == read[..3] + [SPACE] + read[4..n] + [NEWLINE] + read[n + 1..];
  }

  lemma StatusRange(d: Bytes)
    requires |d| == 3 && AllDigits(d) && d[0] != ZERO
    ensures 100 <= Number(d) <= 999
  {
    assert d[..2][..1] == d[..1] && d[..1][..0] == [];
    assert Number(d[..1]) == d[0] - ZERO;
    assert Number(d[..2]) == 10 * Number(d[..1]) + (d[1] - ZERO);
  }

  // ----- the printed frame, read back -----

  lemma FieldLengths(r: Reply)
    requires Printable(r)
    ensures |Digits(r.status)| == 3 && |Digits(|r.body|)| <= 7
  {
    DigitsLength(r.status, 3, 1000);
    assert Power10(7) == 10000000 by { assert Power10(4) == 10000; assert Power10(5) == 100000; assert Power10(6) == 1000000; }
    DigitsLength(|r.body|, 7, 10000000);
    StatusTooShort(r.status);
  }

  lemma DigitsHaveNoNewline(d: Bytes)
    requires AllDigits(d)
    ensures NEWLINE !in d
  {
  }

  lemma HeaderShape(r: Reply)
    requires Printable(r)
    ensures var h := Header(r); var n := |h| - 1;
            && 6 <= |h| <= 14 && LineEnd(h) == n && IsHeaderLine(h[..n])
            && h[..3] == Digits(r.status) && h[4..n] == Digits(|r.body|) && |Digits(r.status)| == 3
            && Number(h[..3]) == r.status && Number(h[4..n]) == |r.body|
  {
    NumberOfDigits(r.status);
    NumberOfDigits(|r.body|);
    FieldLengths(r);
    hide Digits, Number, LineEnd;
    var h := Header(r);
    var n := |h| - 1;
    assert h[..3] == Digits(r.status) && h[3] == SPACE && h[4..n] == Digits(|r.body|);
    assert h[..n] == Digits(r.status) + [SPACE] + Digits(|r.body|);
    DigitsHaveNoNewline(Digits(r.status));
    DigitsHaveNoNewline(Digits(|r.body|));
    LineEndAt(h, n);
    assert h[..n][..3] == h[..3] && h[..n][4..] == h[4..n];
  }

  lemma StatusTooShort(n: nat)
    requires n >= 100
    ensures |Digits(n)| >= 3
  {
    assert Digits(n / 10) == Digits(n / 10 / 10) + [ZERO + n / 10 % 10];
  }

  /** The reader's state once the first `k` bytes of a printed frame have been read. */
  function ReadOf(pending: Bytes, r: Reply, k: nat): Exchange
    requires k <= |Print(r)|
  {
    var h := |Header(r)|;
    if k < h then Exchange(pending, Print(r)[..k], None)
    else Exchange(pending, Digits(r.status) + [NEWLINE] + r.body[..k - h], Some(4 + |r.body|))
  }

  lemma PrefixHasNoLine(r: Reply, k: nat)
    requires Printable(r) && k < |Header(r)|
    ensures Print(r)[..k] == Header(r)[..k] && ParseHeader(Print(r)[..k]) == Ok(None)
  {
    HeaderShape(r);
    var n := |Header(r)| - 1;
    var read := Print(r)[..k];
    assert read == Header(r)[..n][..k];
    assert LineEnd(read) == |read|;
  }

  lemma LineParses(line: Bytes, rest: Bytes)
    requires IsHeaderLine(line) && NEWLINE !in line && Number(line[4..]) <= MAX_RESPONSE_BYTES
    requires Number(line[4..]) != 0 ==> 200 <= Number(line[..3]) < 300
    ensures ParseHeader(line + [NEWLINE] + rest) == Ok(Some((4 + Number(line[4..]), line[..3] + [NEWLINE] + rest)))
  {
    var read := line + [NEWLINE] + rest;
    var n := |line|;
    assert read[..n] == line && read[n + 1..] == rest;
    LineEndAt(read, n);
    assert line[..3][0] == line[0];
    assert INVALID_LINE[0] == 73;
  }

  function HeaderLine(r: Reply): Bytes {
    Digits(r.status) + [SPACE] + Digits(|r.body|)
  }

  lemma HeaderLineIs(r: Reply)
    requires Printable(r)
    ensures var line := HeaderLine(r);
            && Header(r) == line + [NEWLINE] && IsHeaderLine(line) && NEWLINE !in line
            && line[..3] == Digits(r.status) && Number(line[..3]) == r.status && Number(line[4..]) == |r.body|
  {
    HeaderShape(r);
    hide Digits, Number;
    var line, n := HeaderLine(r), |Header(r)| - 1;
    assert Header(r)[..n] == line;
    assert line[..3] == Header(r)[..3] && line[4..] == Header(r)[4..n];
  }

  lemma HeaderParses(r: Reply, k: nat)
    requires Printable(r) && |Header(r)| <= k <= |Print(r)|
    ensures var read := Print(r)[..k];
            ParseHeader(read) == Ok(Some((4 + |r.body|, Digits(r.status) + [NEWLINE] + r.body[..k - |Header(r)|])))
  {
    HeaderLineIs(r);
    hide Digits, Number, ParseHeader, IsHeaderLine, HeaderLine;
    var rest := r.body[..k - |Header(r)|];
    assert Print(r)[..k] == HeaderLine(r) + [NEWLINE] + rest;
    LineParses(HeaderLine(r), rest);
  }

  lemma BodyReadsOn(pending: Bytes, r: Reply, k: nat, m: nat)
    requires |Header(r)| <= k && k + m <= |Print(r)| && |Digits(r.status)| == 3
    ensures Absorb(ReadOf(pending, r, k), Print(r)[k..k + m]) == Ok(ReadOf(pending, r, k + m))
  {
    hide Header, Digits, ParseHeader;
    var h := |Header(r)|;
    assert Print(r)[k..k + m] == r.body[k - h..k + m - h];
    assert ReadOf(pending, r, k).reply + Print(r)[k..k + m] == ReadOf(pending, r, k + m).reply;
  }

  lemma HeaderReadsOn(pending: Bytes, r: Reply, k: nat, m: nat)
    requires Printable(r) && k < |Header(r)| && k + m <= |Print(r)| && |Digits(r.status)| == 3
    ensures Absorb(ReadOf(pending, r, k), Print(r)[k..k + m]) == Ok(ReadOf(pending, r, k + m))
  {
    hide Header, Digits, ParseHeader, Printable;
    assert Print(r)[..k] + Print(r)[k..k + m] == Print(r)[..k + m];
    if k + m < |Header(r)| {
      PrefixHasNoLine(r, k + m);
    } else {
      HeaderParses(r, k + m);
    }
  }

  /** Whatever the chunking, reading a printed frame never fails and its state depends only on the count. */
  lemma AbsorbReadsOn(pending: Bytes, r: Reply, k: nat, m: nat)
    requires Printable(r) && k + m <= |Print(r)|
    ensures Absorb(ReadOf(pending, r, k), Print(r)[k..k + m]) == Ok(ReadOf(pending, r, k + m))
  {
    HeaderShape(r);
    if k >= |Header(r)| {
      BodyReadsOn(pending, r, k, m);
    } else {
      HeaderReadsOn(pending, r, k, m);
    }
  }

  /** The header can be read off any stream that starts with the frame. */
  lemma FrameLeads(r: Reply, u: Bytes)
    requires Printable(r)
    ensures var s := Print(r) + u; var n := LineEnd(s);
            && n == |Header(r)| - 1 && 5 <= n && n + 1 + |r.body| <= |s|
            && AllDigits(s[..3]) && Number(s[..3]) == r.status
            && AllDigits(s[4..n]) && Number(s[4..n]) == |r.body|
            && s[n + 1..n + 1 + |r.body|] == r.body && s[n + 1 + |r.body|..] == u
  {
    HeaderShape(r);
    var s := Print(r) + u;
    var n := |Header(r)| - 1;
    assert s[..n] == Header(r)[..n] && s[n] == NEWLINE;
    LineEndAt(s, n);
    assert s[..3] == Header(r)[..3] && s[4..n] == Header(r)[4..n];
  }

  /** No printed frame is a proper prefix of a stream that starts with another. */
  lemma FramesArePrefixFree(a: Reply, b: Reply, u: Bytes, v: Bytes)
    requires Printable(a) && Printable(b) && Print(a) + u == Print(b) + v
    ensures a == b && u == v
  {
    FrameLeads(a, u);
    FrameLeads(b, v);
  }
}
