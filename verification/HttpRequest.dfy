/** How a connection handler cuts a request line out of its receive buffer and copies the target into
    the record it posts. */
module HttpRequest {
  import opened CStrings
  import opened UrlData

  const BUFF_SIZE := 1024

  datatype Parsed =
    | RecvError                                  // nothing received
    | NoVersion                                  // no "HTTP" in the text
    | NoTarget                                   // no space in front of it
    | Overflow(target: string)                   // the target does not fit My_URLString
    | Posted(kind: string, url: UrlString)         // the request type, the 30 bytes of My_URLString

  function Padding(n: nat): (s: seq<char>)
    ensures |s| == n && forall i :: 0 <= i < n ==> s[i] == NUL
  {
    seq(n, i => NUL)
  }

  /** `My_URLString` for a target: the target, then zero bytes. */
  function Record(target: string): (r: UrlString)
    requires |target| <= URL_SIZE
    ensures target <= r && forall i :: |target| <= i < |r| ==> r[i] == NUL
  {
    target + Padding(URL_SIZE - |target|)
  }

  function Arrived(request: seq<char>): (r: seq<char>)
    ensures |r| < BUFF_SIZE && r <= request
  {
    if |request| < BUFF_SIZE then request else request[..BUFF_SIZE - 1]
  }

  /** Reference reading: the text in front of "HTTP", split at its first space. */
  function Split(text: string): (r: Parsed) {
    match Find(text, "HTTP")
    case None => NoVersion
    case Some(i) =>
      var head := text[..i];
      match Find(head, " ")
      case None => NoTarget
      case Some(j) =>
        var target := head[j + 1..];
        if |target| > URL_SIZE then Overflow(target) else Posted(head[..j], Record(target))
  }

  function Parse(request: seq<char>): (r: Parsed) {
    if request == [] then RecvError else Split(Text(Arrived(request), NUL))
  }

  /** `p = strstr(buff, pat); p[0] = 0`. */
  method Cut(buff: array<char>, pat: string) returns (at: Option<nat>)
    requires NUL in buff[..] && pat != []
    modifies buff
    ensures at == Find(Text(old(buff[..]), NUL), pat) && NUL in buff[..]
    ensures at.None? ==> buff[..] == old(buff[..])
    ensures at.Some? ==> at.value < |Text(old(buff[..]), NUL)| && buff[..] == old(buff[..])[at.value := NUL]
    ensures at.Some? ==> Text(buff[..], NUL) == Text(old(buff[..]), NUL)[..at.value]
  {
    var text := Text(buff[..], NUL);
    at := Find(text, pat);
    if at.Some? {
      var i := at.value;
      buff[i] := NUL;
      assert buff[..][..i] == text[..i] && buff[..][i] == NUL;
      CutText(buff[..], text[..i]);
    }
  }

  /** The loop that fills `My_URLString`. */
  method CopyTarget(buff: array<char>, uri: nat, length: nat) returns (url: UrlString)
    requires uri + length <= buff.Length && length <= URL_SIZE
    ensures url == Record(buff[uri..uri + length])
  {
    var urlString := new char[URL_SIZE](_ => NUL);
    for j := 0 to length
      invariant forall k :: 0 <= k < URL_SIZE ==> urlString[k] == if k < j then buff[uri + k] else NUL
    {
      urlString[j] := buff[uri + j];
    }
    assert urlString[..] == Record(buff[uri..uri + length]);
    url := urlString[..];
  }

  /** The parsing part of the handler: cut at "HTTP", cut at the first space, copy the target. */
  method ParseBuffer(buff: array<char>) returns (r: Parsed)
    requires NUL in buff[..]
    modifies buff
    ensures r == Split(Text(old(buff[..]), NUL))
  {
    ghost var memory := buff[..];
    var version := Cut(buff, "HTTP");
    if version.None? {
      return NoVersion;
    }
    var space := Cut(buff, " ");
    if space.None? {
      return NoTarget;
    }
    TwoCuts(memory, version.value, space.value);
    SplitAt(Text(memory, NUL), version.value, space.value);
    r := TakeTarget(buff, space.value + 1);
  }

  method TakeTarget(buff: array<char>, uri: nat) returns (r: Parsed)
    requires uri <= buff.Length
    ensures var target := Text(buff[..][uri..], NUL);
            r == if |target| > URL_SIZE then Overflow(target) else Posted(Text(buff[..], NUL), Record(target))
  {
    var length := TextLength(buff[..][uri..], NUL);
    assert buff[uri..uri + length] == Text(buff[..][uri..], NUL);
    if length > URL_SIZE {
      return Overflow(buff[uri..uri + length]);
    }
    var url := CopyTarget(buff, uri, length);
    r := Posted(Text(buff[..], NUL), url);
  }

  /** The handler from `recv` to the posted record. */
  method HandleRequest(request: seq<char>) returns (r: Parsed)
    ensures r == Parse(request)
  {
    var buff := new char[BUFF_SIZE](_ => NUL);
    var received := Arrived(request);
    forall i | 0 <= i < |received| {
      buff[i] := received[i];
    }
    if |received| <= 0 {
      return RecvError;
    }
    assert buff[..] == received + Padding(BUFF_SIZE - |received|);
    PaddedText(received, buff[..]);
    assert buff[..][BUFF_SIZE - 1] == NUL;
    r := ParseBuffer(buff);
  }

  lemma SplitAt(text: string, version: nat, space: nat)
    requires Find(text, "HTTP") == Some(version) && version <= |text|
    requires Find(text[..version], " ") == Some(space) && space < version
    ensures var target := text[..version][space + 1..];
            Split(text) == if |target| > URL_SIZE then Overflow(target) else Posted(text[..version][..space], Record(target))
  {
  }

  /** With terminators written at `space` and `version`, the string behind the first ends at the second. */
  lemma TwoCuts(memory: seq<char>, version: nat, space: nat)
    requires space < version < |Text(memory, NUL)|
    ensures Text(memory[version := NUL][space := NUL][space + 1..], NUL) == Text(memory, NUL)[..version][space + 1..]
  {
    var text := Text(memory, NUL);
    var target := text[..version][space + 1..];
    var rest := memory[version := NUL][space := NUL][space + 1..];
    assert rest[..|target|] == target && rest[|target|] == NUL;
    CutText(rest, target);
  }

  lemma PaddedText(received: seq<char>, memory: seq<char>)
    requires |received| < |memory| && memory == received + Padding(|memory| - |received|)
    ensures Text(memory, NUL) == Text(received, NUL)
  {
    var n := TextLength(received, NUL);
    assert memory[..n] == received[..n];
    TextUnique(memory, NUL, n);
  }

  lemma CutText(memory: seq<char>, head: string)
    requires |head| < |memory| && memory[..|head|] == head && NUL !in head && memory[|head|] == NUL
    ensures Text(memory, NUL) == head
  {
    TextUnique(memory, NUL, |head|);
  }

  // ----- The parser undoes the printer -----

  /** A request line and whatever follows "HTTP" in the request. */
  function RequestLine(kind: string, target: string, rest: seq<char>): string {
    kind + " " + target + " HTTP" + rest
  }

  /** Free of spaces and of "HTTP" in the right places, a request line can only break at its own
      spaces: no match of "HTTP" reaches across a space. */
  lemma FirstVersion(kind: string, target: string, rest: string)
    requires !Contains(kind, "HTTP") && !Contains(target, "HTTP")
    ensures Find(RequestLine(kind, target, rest), "HTTP") == Some(|kind| + |target| + 2)
  {
    var s := RequestLine(kind, target, rest);
    var a, b := |kind|, |kind| + 1 + |target|;
    assert s == (kind + " " + target + " ") + "HTTP" + rest;
    OccursBehind(kind + " " + target + " ", "HTTP", rest);
    assert s[..a] == kind && s[a] == ' ' && s[a + 1..b] == target && s[b] == ' ';
    forall i: nat | i <= b ensures !OccursAt(s, "HTTP", i) {
      OccurrenceAvoids(s, "HTTP", i, a);
      OccurrenceAvoids(s, "HTTP", i, b);
      if i + 4 <= a {
        OccursInPart(s, "HTTP", i, 0, a);
      } else if a < i && i + 4 <= b {
        OccursInPart(s, "HTTP", i, a + 1, b);
      }
    }
    FindIs(s, "HTTP", b + 1);
  }

  /** On every printed request line, whatever follows "HTTP", the two cuts leave exactly the method
      and the target with one trailing space if and only if the method has no space and neither
      contains "HTTP". */
  lemma SplitUndoesPrint(kind: string, target: string, rest: string)
    requires |target| < URL_SIZE
    ensures Split(RequestLine(kind, target, rest)) == Posted(kind, Record(target + " "))
            <==> ' ' !in kind && !Contains(kind, "HTTP") && !Contains(target, "HTTP")
  {
    var s := RequestLine(kind, target, rest);
    if Contains(kind, "HTTP") {
      assert s[0..|kind|] == kind;
      EarlyVersion(kind, target, s, 0, |kind|);
    } else if Contains(target, "HTTP") {
      assert s[|kind| + 1..|kind| + 1 + |target|] == target;
      EarlyVersion(kind, target, s, |kind| + 1, |kind| + 1 + |target|);
    } else {
      FirstVersion(kind, target, rest);
      LineFront(kind, target, rest);
      SplitHead(kind, target + " ", s);
    }
  }

  lemma LineFront(kind: string, target: string, rest: string)
    ensures var front := kind + " " + (target + " ");
            front <= RequestLine(kind, target, rest) && |front| == |kind| + |target| + 2
  {
  }

  lemma SplitHead(kind: string, tail: string, s: string)
    requires |tail| <= URL_SIZE && Find(s, "HTTP") == Some(|kind| + 1 + |tail|)
    requires s[..|kind| + 1 + |tail|] == kind + " " + tail
    ensures Split(s) == Posted(kind, Record(tail)) <==> ' ' !in kind
  {
    var head := kind + " " + tail;
    if ' ' in kind {
      SpacedKind(kind, tail);
    } else {
      SplitAtSpace(kind, tail);
    }
  }

  lemma SplitAtSpace(kind: string, tail: string)
    requires ' ' !in kind
    ensures var head := kind + " " + tail;
            Find(head, " ") == Some(|kind|) && head[..|kind|] == kind && head[|kind| + 1..] == tail
  {
    FindAfter(kind, " " + tail, " ");
    assert kind + (" " + tail) == kind + " " + tail;
  }

  /** A "HTTP" in front of the target's trailing space cuts that space off. */
  lemma EarlyVersion(kind: string, target: string, s: string, lo: nat, hi: nat)
    requires |target| < URL_SIZE && lo <= hi <= |kind| + 1 + |target| && hi <= |s|
    requires Contains(s[lo..hi], "HTTP")
    ensures Split(s) != Posted(kind, Record(target + " "))
  {
    var i: nat :| OccursAt(s[lo..hi], "HTTP", i);
    OccursInPart(s, "HTTP", lo + i, lo, hi);
    var cut := Find(s, "HTTP").value;
    assert cut <= lo + i;
    if Split(s).Posted? {
      var head := s[..cut];
      var found := head[Find(head, " ").value + 1..];
      RecordKeepsLast(found, target);
    }
  }

  lemma RecordKeepsLast(found: string, target: string)
    requires |found| <= URL_SIZE && |target| < URL_SIZE
    ensures Record(found) == Record(target + " ") ==> |found| > |target|
  {
    assert Record(target + " ")[|target|] == ' ';
    if |found| <= |target| {
      assert Record(found)[|target|] == NUL;
    }
  }

  lemma SpacedKind(kind: string, tail: string)
    requires ' ' in kind
    ensures Find(kind + " " + tail, " ").Some? && Find(kind + " " + tail, " ").value < |kind|
  {
    var i :| 0 <= i < |kind| && kind[i] == ' ';
    assert (kind + " " + tail)[i..i + 1] == " ";
    assert OccursAt(kind + " " + tail, " ", i);
  }

  /** What follows "HTTP", embedded zeros and bytes beyond the buffer included, never reaches the cuts. */
  lemma ArrivedLine(kind: string, target: string, rest: seq<char>) returns (seen: string)
    requires NUL !in kind && NUL !in target && |kind| + |target| + 6 < BUFF_SIZE
    ensures Text(Arrived(RequestLine(kind, target, rest)), NUL) == RequestLine(kind, target, seen)
  {
    var front := kind + " " + target + " HTTP";
    var got := Arrived(front + rest);
    var tail := got[|front|..];
    seen := Text(tail, NUL);
    var n := |front| + |seen|;
    assert got == front + tail;
    assert got[..n] == front + seen;
    assert NUL !in front + seen;
    TextUnique(got, NUL, n);
  }

  /** Received in a 1024-byte buffer, a request line with any continuation is read back as its method
      and its target with one trailing space, if and only if the method has no space and neither
      contains "HTTP". */
  lemma ParseUndoesPrint(kind: string, target: string, rest: seq<char>)
    requires NUL !in kind && NUL !in target && |target| < 30 && |kind| + |target| + 6 < 1024
    ensures Parse(RequestLine(kind, target, rest)) == Posted(kind, Record(target + " "))
            <==> ' ' !in kind && !Contains(kind, "HTTP") && !Contains(target, "HTTP")
  {
    var seen := ArrivedLine(kind, target, rest);
    SplitUndoesPrint(kind, target, seen);
  }

  /** Every outcome on every request, whatever bytes it holds. Only the first 1023 bytes arrive, and of
      those only what stands in front of a zero byte counts. */
  lemma EveryOutcome(request: seq<char>)
    ensures Parse(request) == RecvError <==> request == []
    ensures var text := Text(if |request| <= 1023 then request else request[..1023], NUL);
            && (Parse(request) == NoVersion <==> request != [] && !Contains(text, "HTTP"))
            && (Parse(request) == NoTarget <==> exists i: nat :: FirstAt(text, "HTTP", i) && ' ' !in text[..i])
            && (Parse(request).Overflow? <==>
                  exists i: nat, j: nat :: FirstAt(text, "HTTP", i) && FirstSpace(text, i, j) && i - j - 1 > 30)
            && (Parse(request).Posted? <==>
                  exists i: nat, j: nat :: FirstAt(text, "HTTP", i) && FirstSpace(text, i, j) && i - j - 1 <= 30)
  {
    var text := Text(if |request| <= 1023 then request else request[..1023], NUL);
    if Find(text, "HTTP").Some? {
      var i := Find(text, "HTTP").value;
      assert FirstAt(text, "HTTP", i);
      FirstUnique(text, "HTTP", i);
      SpaceInHead(text, i);
    } else {
      assert forall i: nat :: !FirstAt(text, "HTTP", i);
    }
  }

  /** And what it holds: the method in front of the first space, the target between that space and the
      first "HTTP". */
  lemma OutcomeAt(request: seq<char>, text: string, i: nat, j: nat)
    requires text == Text(if |request| <= 1023 then request else request[..1023], NUL)
    requires FirstAt(text, "HTTP", i) && FirstSpace(text, i, j)
    ensures Parse(request) == if i - j - 1 > 30 then Overflow(text[j + 1..i]) else Posted(text[..j], Record(text[j + 1..i]))
  {
    FindIs(text, "HTTP", i);
    SpaceInHead(text, i);
    assert text[..i][j + 1..] == text[j + 1..i] && text[..i][..j] == text[..j];
  }

  ghost predicate FirstAt(text: string, pat: string, i: nat) {
    i <= |text| && OccursAt(text, pat, i) && forall j: nat :: j < i ==> !OccursAt(text, pat, j)
  }

  ghost predicate FirstSpace(text: string, i: nat, j: nat)
    requires i <= |text|
  {
    j < i && text[j] == ' ' && ' ' !in text[..j]
  }

  lemma FirstUnique(text: string, pat: string, i: nat)
    requires FirstAt(text, pat, i)
    ensures forall j: nat :: FirstAt(text, pat, j) ==> j == i
  {
    forall j: nat | FirstAt(text, pat, j) ensures j == i {
      FindIs(text, pat, i);
      FindIs(text, pat, j);
    }
  }

  lemma SpaceInHead(text: string, i: nat)
    requires i <= |text|
    ensures Find(text[..i], " ").None? <==> ' ' !in text[..i]
    ensures forall j: nat :: FirstSpace(text, i, j) <==> Find(text[..i], " ") == Some(j)
  {
    var head := text[..i];
    forall j: nat ensures OccursAt(head, " ", j) <==> j < i && head[j] == ' ' {
      if j < i {
        assert head[j..j + 1] == [head[j]];
      }
    }
    forall j: nat ensures FirstSpace(text, i, j) <==> Find(head, " ") == Some(j) {
      if j < i {
        assert text[..j] == head[..j];
        assert ' ' !in text[..j] <==> forall k: nat :: k < j ==> head[k] != ' ';
        if FirstSpace(text, i, j) {
          FindIs(head, " ", j);
        }
      }
    }
    if ' ' in head {
      var k :| 0 <= k < |head| && head[k] == ' ';
      assert OccursAt(head, " ", k);
    }
  }

  /** A printed request line whose target, with its space, exceeds the 30 bytes overruns the record; one
      whose "HTTP" does not arrive within 1023 bytes is refused. */
  lemma LongLines(kind: string, target: string, rest: seq<char>)
    requires NUL !in kind && NUL !in target && ' ' !in kind
    requires !Contains(kind, "HTTP") && !Contains(target, "HTTP")
    ensures |target| >= 30 && |kind| + |target| + 6 < 1024 ==>
              Parse(RequestLine(kind, target, rest)) == Overflow(target + " ")
    ensures |kind| + |target| + 6 >= 1024 ==> Parse(RequestLine(kind, target, rest)) == NoVersion
  {
    if |kind| + |target| + 6 >= 1024 {
      LateVersion(kind, target, rest);
    } else if |target| >= 30 {
      var seen := ArrivedLine(kind, target, rest);
      LongTarget(kind, target, seen);
    }
  }

  lemma LongTarget(kind: string, target: string, rest: string)
    requires ' ' !in kind && !Contains(kind, "HTTP") && !Contains(target, "HTTP") && |target| >= 30
    ensures Split(RequestLine(kind, target, rest)) == Overflow(target + " ")
  {
    FirstVersion(kind, target, rest);
    LineFront(kind, target, rest);
    OverflowHead(kind, target + " ", RequestLine(kind, target, rest));
  }

  lemma OverflowHead(kind: string, tail: string, s: string)
    requires |tail| > URL_SIZE && Find(s, "HTTP") == Some(|kind| + 1 + |tail|)
    requires s[..|kind| + 1 + |tail|] == kind + " " + tail && ' ' !in kind
    ensures Split(s) == Overflow(tail)
  {
    SplitAtSpace(kind, tail);
  }

  lemma LateVersion(kind: string, target: string, rest: seq<char>)
    requires !Contains(kind, "HTTP") && !Contains(target, "HTTP") && |kind| + |target| + 6 >= 1024
    ensures Parse(RequestLine(kind, target, rest)) == NoVersion
  {
    var s := RequestLine(kind, target, rest);
    FirstVersion(kind, target, rest);
    var text := Text(Arrived(s), NUL);
    if Find(text, "HTTP").Some? {
      FindInPrefix(text, s, "HTTP");
    }
  }
}
