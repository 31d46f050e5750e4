/** The reply side of a connection handler: the partial-write loop, the two canned responses, and the
    framing by Content-Length (section 3.3.2 of RFC 7230) as a client reads it. */
module HttpResponse {
  import opened CStrings
  import opened Decimal

  /** What one `send` call comes back with: it takes at least one byte and at most what was offered,
      or it is interrupted (EINTR), or it fails. */
  datatype SendResult = Took(room: nat) | Interrupted | Failed
  type Answer = r: SendResult | r.Took? ==> r.room >= 1 witness Failed

  /** How many bytes the first `n` calls had room for. */
  function Taken(results: nat -> Answer, n: nat): nat {
    if n == 0 then 0 else Taken(results, n - 1) + if results(n - 1).Took? then results(n - 1).room else 0
  }

  /** What of `data` is out after `calls` calls. */
  function Out(data: string, results: nat -> Answer, calls: nat): (s: string)
    ensures s <= data
  {
    if Taken(results, calls) < |data| then data[..Taken(results, calls)] else data
  }

  /** Writing `data` ends after `calls` calls with `code`: 0 as soon as there was room for all of it,
      -1 at the first failed call if there was not. */
  ghost predicate Ends(data: string, results: nat -> Answer, code: int, calls: nat) {
    if code == 0 then
      && (forall k: nat :: k < calls ==> results(k) != Failed)
      && |data| <= Taken(results, calls)
      && (calls > 0 ==> Taken(results, calls - 1) < |data|)
    else
      && code == -1 && calls > 0 && results(calls - 1) == Failed
      && (forall k: nat :: k < calls - 1 ==> results(k) != Failed)
      && Taken(results, calls) < |data|
  }

  lemma {:induction false} TakenMonotone(results: nat -> Answer, m: nat, n: nat)
    requires m <= n
    ensures Taken(results, m) <= Taken(results, n)
    decreases n
  {
    if m < n {
      TakenMonotone(results, m, n - 1);
    }
  }

  /** The network's answers determine result and number of calls. */
  lemma EndsUnique(data: string, results: nat -> Answer, c: int, m: nat, d: int, n: nat)
    requires Ends(data, results, c, m) && Ends(data, results, d, n)
    ensures c == d && m == n
  {
    if m < n {
      TakenMonotone(results, m, n - 1);
    } else if n < m {
      TakenMonotone(results, n, m - 1);
    }
  }

  /** `my_write`. The network answers the k-th call with `results(k)`; from call `quiet` on it no
      longer interrupts, which is what makes the loop end. */
  method MyWrite(buffer: seq<char>, length: int, results: nat -> Answer, ghost quiet: nat)
    returns (code: int, sent: seq<char>, calls: nat)
    requires length <= |buffer|
    requires forall k: nat :: k >= quiet ==> results(k) != Interrupted
    ensures var data := buffer[..if length > 0 then length else 0];
            Ends(data, results, code, calls) && sent == Out(data, results, calls)
  {
    var bytesLeft, ptr := length, 0;
    sent, calls := [], 0;
    while bytesLeft > 0
      invariant if length > 0 then ptr + bytesLeft == length && bytesLeft >= 0 else ptr == 0 && bytesLeft == length
      invariant ptr >= 0 && sent == buffer[..ptr]
      invariant forall k: nat :: k < calls ==> results(k) != Failed
      invariant bytesLeft > 0 ==> Taken(results, calls) == ptr
      invariant length > 0 && bytesLeft == 0 ==> calls > 0 && Taken(results, calls - 1) < length <= Taken(results, calls)
      invariant length <= 0 ==> calls == 0
      decreases if calls < quiet then quiet - calls else 0, bytesLeft
    {
      var written;
      match results(calls) {
        case Took(room) =>
          written := if room < bytesLeft then room else bytesLeft;
        case Interrupted =>
          written := 0;
        case Failed =>
          assert buffer[..length][..ptr] == buffer[..ptr];
          return -1, sent, calls + 1;
      }
      sent := sent + buffer[ptr..ptr + written];
      bytesLeft := bytesLeft - written;
      ptr := ptr + written;
      calls := calls + 1;
    }
    code := 0;
  }

  /** If no call fails, everything goes out; if it does not, what went out is a proper prefix. */
  lemma EndsMeans(data: string, results: nat -> Answer, code: int, calls: nat)
    requires Ends(data, results, code, calls)
    ensures code == 0 || code == -1
    ensures code == 0 <==> Out(data, results, calls) == data
    ensures code == 0 <==> forall k: nat :: k < calls ==> results(k) != Failed
  {
  }

  const CRLF := "\r\n"

  /** Lines, each ended by CR LF. */
  function Joined(lines: seq<string>): string {
    if lines == [] then [] else lines[0] + CRLF + Joined(lines[1..])
  }

  function HeaderLines(n: nat): seq<string> {
    ["HTTP/1.1 200 OK", "Server: lwIP/1.4.0", "Content-Type: text/html", "Connection: Keep-Alive",
     "Content-Length: " + Digits(n) + " "]
  }

  /** `sprintf` of HTTP_200 for a page of `n` bytes. */
  function Header200(n: nat): string {
    Joined(HeaderLines(n)) + CRLF
  }

  /** HTTP_400; its head ends with a lone line feed. */
  function Text400(): string {
    Joined(["HTTP/1.0 400 BadRequest", "Content-Length: 0", "Connection: Close", "Server: lwIP/1.4.0"]) + "\n"
  }

  // ----- A client's reading -----

  /** Header lines up to the empty line, and what follows it. */
  function ReadHead(s: string): (r: Option<(seq<string>, string)>)
    decreases |s|
  {
    var i :- Find(s, CRLF);
    var rest := s[i + 2..];
    if i == 0 then Some(([], rest)) else
    var (lines, tail) :- ReadHead(rest);
    Some(([s[..i]] + lines, tail))
  }

  function Trim(s: string): string {
    if s == [] then []
    else if s[0] == ' ' then Trim(s[1..])
    else if s[|s| - 1] == ' ' then Trim(s[..|s| - 1])
    else s
  }

  /** The value of the first field called `name`, without the blanks around it. */
  function Field(lines: seq<string>, name: string): (r: Option<string>) {
    if lines == [] then None
    else if name + ":" <= lines[0] then Some(Trim(lines[0][|name| + 1..]))
    else Field(lines[1..], name)
  }

  function Number(s: string): (r: Option<nat>) {
    if s != [] && AllDigits(s) then Some(Value(s)) else None
  }

  datatype Reply = Response(status: nat, body: string, rest: string)

  /** The three-digit code of a status line (section 3.1.2 of RFC 7230). */
  function StatusCode(line: string): (r: Option<nat>) {
    if |line| >= 12 && "HTTP/1." <= line && line[8] == ' ' then Number(line[9..12]) else None
  }

  /** The status, the body that Content-Length delimits, and the bytes that follow it. */
  function ReadResponse(s: string): (r: Option<Reply>) {
    var (lines, rest) :- ReadHead(s);
    if lines == [] then None else
    var status :- StatusCode(lines[0]);
    var text :- Field(lines, "Content-Length");
    var n :- Number(text);
    if n > |rest| then None else Some(Response(status, rest[..n], rest[n..]))
  }

  // ----- Framing -----

  /** Reading a head takes off its first line. */
  lemma HeadLine(line: string, later: string)
    requires line != [] && '\r' !in line
    ensures var r := ReadHead(later);
            ReadHead(line + (CRLF + later)) == if r.None? then None else Some(([line] + r.value.0, r.value.1))
  {
    var s := line + (CRLF + later);
    FindAfter(line, CRLF + later, CRLF);
    assert s[|line| + 2..] == later && s[..|line|] == line;
  }

  lemma {:induction false} ReadHeadOfLines(lines: seq<string>, rest: string)
    requires forall i :: 0 <= i < |lines| ==> lines[i] != [] && '\r' !in lines[i]
    ensures ReadHead(Joined(lines) + (CRLF + rest)) == Some((lines, rest))
    decreases |lines|
  {
    var s := Joined(lines) + (CRLF + rest);
    if lines == [] {
      assert s == [] + (CRLF + rest);
      FindAfter([], CRLF + rest, CRLF);
      assert s[2..] == rest;
    } else {
      var later := Joined(lines[1..]) + (CRLF + rest);
      assert s == lines[0] + (CRLF + later);
      ReadHeadOfLines(lines[1..], rest);
      HeadLine(lines[0], later);
      assert [lines[0]] + lines[1..] == lines;
    }
  }

  lemma {:induction false} TrimDigits(d: string)
    requires d != [] && AllDigits(d)
    ensures Trim(" " + d + " ") == d
  {
    var s := " " + d + " ";
    var u := d + " ";
    assert s[1..] == u && u[..|d|] == d;
    assert IsDigit(d[0]) && IsDigit(d[|d| - 1]);
    assert Trim(d) == d;
    assert Trim(u) == Trim(d);
  }

  lemma LengthField(n: nat)
    ensures Field(HeaderLines(n), "Content-Length") == Some(Digits(n))
  {
    var l := HeaderLines(n);
    assert "Content-Length" + ":" == "Content-Length:";
    assert l[0][0] == 'H' && l[1][0] == 'S' && l[2][3] == 't' && l[2][8] == 'T' && l[3][2] == 'n' && l[3][3] == 'n';
    assert "Content-Length:" <= l[4];
    assert l[4][15..] == " " + Digits(n) + " ";
    TrimDigits(Digits(n));
    assert l[1..][1..] == l[2..] && l[2..][1..] == l[3..] && l[3..][1..] == l[4..];
    assert Field(l[4..], "Content-Length") == Some(Digits(n));
    assert Field(l[3..], "Content-Length") == Some(Digits(n));
    assert Field(l[2..], "Content-Length") == Some(Digits(n));
  }

  lemma HeaderLinesPlain(n: nat)
    ensures forall i :: 0 <= i < |HeaderLines(n)| ==> HeaderLines(n)[i] != [] && '\r' !in HeaderLines(n)[i]
  {
    var d := Digits(n);
    assert '\r' !in d;
  }

  /** Behind the 200 header for `n` bytes a client reads exactly the next `n` bytes, or nothing if
      fewer follow. */
  lemma FramingReads(n: nat, rest: string)
    ensures ReadResponse(Header200(n) + rest) == if n > |rest| then None else Some(Response(200, rest[..n], rest[n..]))
  {
    HeadOf200(n, rest);
    StatusLines();
    LengthField(n);
    ValueOfDigits(n);
  }

  lemma StatusLines()
    ensures StatusCode("HTTP/1.1 200 OK") == Some(200) && StatusCode("HTTP/1.0 400 BadRequest") == Some(400)
  {
    assert "HTTP/1.1 200 OK"[9..12] == "200" && "HTTP/1.0 400 BadRequest"[9..12] == "400";
    ThreeDigits('2', '0', '0');
    ThreeDigits('4', '0', '0');
  }

  lemma ThreeDigits(a: char, b: char, c: char)
    requires IsDigit(a) && IsDigit(b) && IsDigit(c)
    ensures Value([a, b, c]) == 100 * DigitValue(a) + 10 * DigitValue(b) + DigitValue(c)
  {
    assert [a, b, c] == [] + [a] + [b] + [c];
    ValueAppend([], a);
    ValueAppend([] + [a], b);
    ValueAppend([] + [a] + [b], c);
  }

  lemma HeadOf200(n: nat, rest: string)
    ensures ReadHead(Header200(n) + rest) == Some((HeaderLines(n), rest))
  {
    HeaderLinesPlain(n);
    ReadHeadOfLines(HeaderLines(n), rest);
    JoinedThen(Joined(HeaderLines(n)), rest);
  }

  lemma JoinedThen(head: string, rest: string)
    ensures head + CRLF + rest == head + (CRLF + rest)
  {
  }

  /** Whatever the page and whatever is sent after it, a client reads exactly the page out of the
      200 header followed by it, and nothing of what comes next. */
  lemma FramingRoundTrip(page: string, next: string)
    ensures ReadResponse(Header200(|page|) + (page + next)) == Some(Response(200, page, next))
  {
    FramingReads(|page|, page + next);
    assert (page + next)[..|page|] == page && (page + next)[|page|..] == next;
  }

  /** A head that never reaches an empty CR LF line is never read to its end. */
  lemma {:induction false} HeadUnfinished(lines: seq<string>, rest: string)
    requires forall i :: 0 <= i < |lines| ==> lines[i] != [] && '\r' !in lines[i]
    requires ReadHead(rest) == None
    ensures ReadHead(Joined(lines) + rest) == None
    decreases |lines|
  {
    var s := Joined(lines) + rest;
    if lines == [] {
      assert s == rest;
    } else {
      var later := Joined(lines[1..]) + rest;
      assert s == lines[0] + (CRLF + later);
      HeadUnfinished(lines[1..], rest);
      HeadLine(lines[0], later);
    }
  }

  lemma JoinedFirst(line: string, lines: seq<string>)
    ensures Joined([line] + lines) == line + CRLF + Joined(lines)
  {
    assert ([line] + lines)[1..] == lines;
  }

  /** The 200 header, character by character. */
  lemma Header200Text(n: nat)
    ensures Header200(n) ==
            "HTTP/1.1 200 OK\r\n" + ("Server: lwIP/1.4.0\r\n" + ("Content-Type: text/html\r\n" +
            ("Connection: Keep-Alive\r\n" + ("Content-Length: " + Digits(n) + " \r\n" + "\r\n"))))
  {
    var l := HeaderLines(n);
    assert l == [l[0]] + ([l[1]] + ([l[2]] + ([l[3]] + ([l[4]] + []))));
    JoinedFirst(l[4], []);
    JoinedFirst(l[3], [l[4]] + []);
    JoinedFirst(l[2], [l[3]] + ([l[4]] + []));
    JoinedFirst(l[1], [l[2]] + ([l[3]] + ([l[4]] + [])));
    JoinedFirst(l[0], [l[1]] + ([l[2]] + ([l[3]] + ([l[4]] + []))));
    LinesText(l[0], l[1], l[2], l[3], l[4]);
    assert l[0] + CRLF == "HTTP/1.1 200 OK\r\n" && l[1] + CRLF == "Server: lwIP/1.4.0\r\n";
    assert l[2] + CRLF == "Content-Type: text/html\r\n" && l[3] + CRLF == "Connection: Keep-Alive\r\n";
    assert l[4] + CRLF == "Content-Length: " + Digits(n) + " \r\n";
  }

  lemma LinesText(a: string, b: string, c: string, d: string, e: string)
    ensures (a + CRLF + (b + CRLF + (c + CRLF + (d + CRLF + (e + CRLF + []))))) + CRLF ==
            (a + CRLF) + ((b + CRLF) + ((c + CRLF) + ((d + CRLF) + ((e + CRLF) + CRLF))))
  {
  }

  /** What a client sees first of a refusal is status 400. */
  lemma BadRequestStatus()
    ensures Find(Text400(), CRLF) == Some(23) && StatusCode(Text400()[..23]) == Some(400)
  {
    FirstLine("HTTP/1.0 400 BadRequest", ["Content-Length: 0", "Connection: Close", "Server: lwIP/1.4.0"], "\n");
    assert ["HTTP/1.0 400 BadRequest", "Content-Length: 0", "Connection: Close", "Server: lwIP/1.4.0"]
        == ["HTTP/1.0 400 BadRequest"] + ["Content-Length: 0", "Connection: Close", "Server: lwIP/1.4.0"];
    StatusLines();
  }

  lemma FirstLine(line: string, others: seq<string>, tail: string)
    requires '\r' !in line
    ensures var s := Joined([line] + others) + tail; Find(s, CRLF) == Some(|line|) && s[..|line|] == line
  {
    var s := Joined([line] + others) + tail;
    JoinedFirst(line, others);
    var later := Joined(others) + tail;
    assert s == line + (CRLF + later);
    FindAfter(line, CRLF + later, CRLF);
  }

  /** What ends a head in a prefix ends it in the whole. */
  lemma {:induction false} HeadOfPrefix(part: string, s: string)
    requires part <= s && ReadHead(part).Some?
    ensures ReadHead(s).Some?
    decreases |part|
  {
    var i := Find(part, CRLF).value;
    FindInPrefix(part, s, CRLF);
    if i > 0 {
      HeadOfPrefix(part[i + 2..], s[i + 2..]);
    }
  }

  /** The 400 response ends its head with CR LF LF, so a client that insists on CR LF never sees the
      head end, however much of it arrives. */
  lemma BadRequestUnframed(wire: string)
    requires wire <= Text400()
    ensures ReadResponse(wire) == None
  {
    HeadUnfinished(["HTTP/1.0 400 BadRequest", "Content-Length: 0", "Connection: Close", "Server: lwIP/1.4.0"], "\n");
    if ReadHead(wire).Some? {
      HeadOfPrefix(wire, Text400());
    }
  }

  function Later(results: nat -> Answer, n: nat): nat -> Answer {
    (k: nat) => results(k + n)
  }

  /** The last part of a handler: answer GET with the page, everything else with the 400 text.
      `wire` is what reached the client after `calls` calls for the first write and `more` for the
      second. A client reads the page if both writes of a GET succeed, nothing if only the second
      fails, and nothing at all for any other method. */
  method Respond(kind: string, page: string, results: nat -> Answer, ghost quiet: nat)
    returns (first: int, second: int, wire: string, calls: nat, more: nat)
    requires forall k: nat :: k >= quiet ==> results(k) != Interrupted
    ensures kind == "GET" ==>
              Ends(Header200(|page|), results, first, calls) && Ends(page, Later(results, calls), second, more) &&
              wire == Out(Header200(|page|), results, calls) + Out(page, Later(results, calls), more)
    ensures kind != "GET" ==> Ends(Text400(), results, first, calls) && wire == Out(Text400(), results, calls)
    ensures (forall k: nat :: results(k) != Failed) ==>
              wire == if kind == "GET" then Header200(|page|) + page else Text400()
    ensures kind == "GET" && first == 0 ==> ReadResponse(wire) == if second == 0 then Some(Response(200, page, [])) else None
    ensures kind != "GET" ==> ReadResponse(wire) == None
  {
    if kind == "GET" {
      first, second, wire, calls, more := SendPage(Header200(|page|), page, results, quiet);
      PageArrives(Header200(|page|), page, results, first, calls, second, more);
    } else {
      second, more := 0, 0;
      var text := Text400();
      first, wire, calls := MyWrite(text, |text|, results, quiet);
      assert text[..|text|] == text;
      EndsMeans(text, results, first, calls);
      BadRequestUnframed(wire);
    }
  }

  lemma PageArrives(header: string, page: string, results: nat -> Answer, first: int, calls: nat, second: int, more: nat)
    requires header == Header200(|page|)
    requires Ends(header, results, first, calls) && Ends(page, Later(results, calls), second, more)
    ensures var wire := Out(header, results, calls) + Out(page, Later(results, calls), more);
            && ((forall k: nat :: results(k) != Failed) ==> wire == header + page)
            && (first == 0 ==> ReadResponse(wire) == if second == 0 then Some(Response(200, page, [])) else None)
  {
    EndsMeans(header, results, first, calls);
    EndsMeans(page, Later(results, calls), second, more);
    FramingReads(|page|, Out(page, Later(results, calls), more));
    assert page[..|page|] == page && page[|page|..] == [];
  }

  /** Header and page, one `my_write` each; the first result does not stop the second. */
  method SendPage(header: string, page: string, results: nat -> Answer, ghost quiet: nat)
    returns (first: int, second: int, wire: string, calls: nat, more: nat)
    requires forall k: nat :: k >= quiet ==> results(k) != Interrupted
    ensures Ends(header, results, first, calls) && Ends(page, Later(results, calls), second, more)
    ensures wire == Out(header, results, calls) + Out(page, Later(results, calls), more)
  {
    var head, tail;
    assert header[..|header|] == header && page[..|page|] == page;
    first, head, calls := MyWrite(header, |header|, results, quiet);
    second, tail, more := MyWrite(page, |page|, Later(results, calls), quiet);
    wire := head + tail;
  }
}
