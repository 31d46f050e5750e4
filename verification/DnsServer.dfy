/** The captive DNS responder: one 128-byte buffer, received into, searched with `strstr`,
    edited into a reply and never cleared. */
module DnsServer {
  import opened CStrings
  import opened DnsMessage

  const BUFFER_SIZE := 128
  const RECV_MAX := 100
  const NAME_OFFSET := 12

  function Ascii(s: string): (b: seq<byte>)
    requires forall i :: 0 <= i < |s| ==> s[i] < 128 as char
    ensures |b| == |s| && forall i :: 0 <= i < |s| ==> b[i] == s[i] as int
  {
    seq(|s|, i requires 0 <= i < |s| => s[i] as int)
  }

  const BLOCKED_WORDS: seq<seq<byte>> :=
    [Ascii("taobao"), Ascii("qq"), Ascii("sogou"), Ascii("amap"),
     Ascii("alipay"), Ascii("youku"), Ascii("iqiyi"), Ascii("baidu")]

  /** The record appended to every reply: a pointer to offset 12, A, IN, TTL 10, 192.168.4.1. */
  const ANSWER: seq<byte> := [0xc0, 0x0c, 0, 1, 0, 1, 0, 0, 0, 10, 0, 4, 192, 168, 4, 1]

  datatype Outcome =
    | NoPacket                     // recvfrom failed
    | Dropped                      // a blocked word was found
    | Answered(reply: seq<byte>)
    | Overread                     // no terminator from offset 12 to the end of the buffer

  /** `b |= 0x80`. */
  function SetTopBit(b: byte): (r: byte) {
    if b < 128 then b + 128 else b
  }

  ghost predicate Blocked(text: seq<byte>) {
    exists i :: 0 <= i < |BLOCKED_WORDS| && Contains(text, BLOCKED_WORDS[i])
  }

  /** The bytes spell `word` from position `i` on; somewhere. */
  ghost predicate SpelledAt(t: seq<byte>, word: string, i: nat) {
    i + |word| <= |t| && forall k :: 0 <= k < |word| ==> t[i + k] == word[k] as int
  }

  ghost predicate Spells(t: seq<byte>, word: string) {
    exists i: nat :: SpelledAt(t, word, i)
  }

  lemma SpellsIff(t: seq<byte>, word: string)
    requires forall i :: 0 <= i < |word| ==> word[i] < 128 as char
    ensures Spells(t, word) <==> Contains(t, Ascii(word))
  {
    forall i: nat ensures SpelledAt(t, word, i) <==> OccursAt(t, Ascii(word), i) {
      if i + |word| <= |t| {
        var part := t[i..i + |word|];
        assert forall k :: 0 <= k < |word| ==> part[k] == t[i + k];
        assert OccursAt(t, Ascii(word), i) <==> part == Ascii(word);
        if part == Ascii(word) {
          assert forall k :: 0 <= k < |word| ==> part[k] == word[k] as int;
        }
      }
    }
    if Spells(t, word) {
      var i: nat :| SpelledAt(t, word, i);
      assert OccursAt(t, Ascii(word), i);
    }
    if Contains(t, Ascii(word)) {
      var i: nat :| OccursAt(t, Ascii(word), i);
      assert SpelledAt(t, word, i);
    }
  }

  /** The filter's words, letter by letter. */
  lemma BlockedIff(t: seq<byte>)
    ensures Blocked(t) <==>
            Spells(t, "taobao") || Spells(t, "qq") || Spells(t, "sogou") || Spells(t, "amap") ||
            Spells(t, "alipay") || Spells(t, "youku") || Spells(t, "iqiyi") || Spells(t, "baidu")
  {
    SpellsIff(t, "taobao");
    SpellsIff(t, "qq");
    SpellsIff(t, "sogou");
    SpellsIff(t, "amap");
    SpellsIff(t, "alipay");
    SpellsIff(t, "youku");
    SpellsIff(t, "iqiyi");
    SpellsIff(t, "baidu");
    BlockedWords(t);
  }

  lemma BlockedWords(t: seq<byte>)
    ensures Blocked(t) <==>
            Contains(t, Ascii("taobao")) || Contains(t, Ascii("qq")) ||
            Contains(t, Ascii("sogou")) || Contains(t, Ascii("amap")) ||
            Contains(t, Ascii("alipay")) || Contains(t, Ascii("youku")) ||
            Contains(t, Ascii("iqiyi")) || Contains(t, Ascii("baidu"))
  {
    var w := BLOCKED_WORDS;
    assert w[0] == Ascii("taobao") && w[1] == Ascii("qq") && w[2] == Ascii("sogou") && w[3] == Ascii("amap");
    assert w[4] == Ascii("alipay") && w[5] == Ascii("youku") && w[6] == Ascii("iqiyi") && w[7] == Ascii("baidu");
  }

  function EditedByte(packet: seq<byte>, i: nat): byte
    requires i < |packet|
  {
    if i == 2 || i == 3 then SetTopBit(packet[i]) else if i == 7 then 1 else packet[i]
  }

  function Reply(packet: seq<byte>): (r: seq<byte>)
    ensures |r| == |packet| + 16
  {
    seq(|packet|, i requires 0 <= i < |packet| => EditedByte(packet, i)) + ANSWER
  }

  function Truncated(datagram: seq<byte>): (packet: seq<byte>)
    ensures |packet| <= RECV_MAX && packet <= datagram
  {
    if |datagram| <= RECV_MAX then datagram else datagram[..RECV_MAX]
  }

  /** What the loop does with `packet` when the buffer still holds `stale`. */
  ghost function Respond(stale: seq<byte>, packet: seq<byte>): (o: Outcome)
    requires |stale| == BUFFER_SIZE && |packet| <= RECV_MAX
  {
    var memory := packet + stale[|packet|..];
    if 0 !in memory[NAME_OFFSET..] then Overread
    else if Blocked(Text(memory[NAME_OFFSET..], 0)) then Dropped
    else Answered(Reply(packet))
  }

  /** One pass of the loop; `None` is a failed `recvfrom`. */
  ghost function Step(stale: seq<byte>, datagram: Option<seq<byte>>): (o: Outcome)
    requires |stale| == BUFFER_SIZE
  {
    if datagram.None? then NoPacket else Respond(stale, Truncated(datagram.value))
  }

  /** What the buffer holds after that pass. */
  ghost function BufferAfter(stale: seq<byte>, datagram: Option<seq<byte>>): (b: seq<byte>)
    requires |stale| == BUFFER_SIZE
    ensures |b| == BUFFER_SIZE
  {
    if datagram.None? then stale else
    var packet := Truncated(datagram.value);
    var memory := packet + stale[|packet|..];
    match Respond(stale, packet)
    case Answered(reply) => reply + memory[|reply|..]
    case _ => memory
  }

  /** Whether the received bytes themselves end the string that `strstr` reads. */
  predicate Terminated(packet: seq<byte>) {
    |packet| > NAME_OFFSET && 0 in packet[NAME_OFFSET..]
  }

  /** What the packet alone decides. */
  ghost function Verdict(packet: seq<byte>): (o: Outcome)
    requires Terminated(packet)
  {
    if Blocked(Text(packet[NAME_OFFSET..], 0)) then Dropped else Answered(Reply(packet))
  }

  ghost function Splice(s: seq<byte>, at: nat, b: seq<byte>): (r: seq<byte>)
    requires at + |b| <= |s|
    ensures |r| == |s|
  {
    s[..at] + b + s[at + |b|..]
  }

  lemma SpliceTwice(s: seq<byte>, at: nat, a: seq<byte>, b: seq<byte>)
    requires at + |a| + |b| <= |s|
    ensures Splice(Splice(s, at, a), at + |a|, b) == Splice(s, at, a + b)
  {
    var t := Splice(s, at, a);
    assert t[..at + |a|] == s[..at] + a;
    assert t[at + |a| + |b|..] == s[at + |a| + |b|..];
  }

  lemma SplicedAnswer(s: seq<byte>, at: nat)
    requires at + 16 <= |s|
    ensures Splice(Splice(Splice(Splice(s, at, [0xc0, 0x0c, 0, 1]), at + 4, [0, 1, 0, 0]), at + 8, [0, 10, 0, 4]),
                   at + 12, [192, 168, 4, 1]) == Splice(s, at, ANSWER)
  {
    var a: seq<byte>, b: seq<byte>, c: seq<byte>, d: seq<byte> :=
      [0xc0, 0x0c, 0, 1], [0, 1, 0, 0], [0, 10, 0, 4], [192, 168, 4, 1];
    SpliceTwice(s, at, a, b);
    SpliceTwice(s, at, a + b, c);
    SpliceTwice(s, at, a + b + c, d);
    assert a + b + c + d == ANSWER;
  }

  class Server {
    const data: array<byte>

    constructor ()
      ensures fresh(data) && data.Length == BUFFER_SIZE
    {
      data := new byte[BUFFER_SIZE];
    }

    /** The filter at the top of the loop body: eight `strstr` calls. */
    method IsBlocked() returns (blocked: bool)
      requires data.Length == BUFFER_SIZE && 0 in data[NAME_OFFSET..]
      ensures blocked <==> Blocked(Text(data[NAME_OFFSET..], 0))
      ensures var t := Text(data[12..], 0);
              blocked <==>
              Spells(t, "taobao") || Spells(t, "qq") || Spells(t, "sogou") || Spells(t, "amap") ||
              Spells(t, "alipay") || Spells(t, "youku") || Spells(t, "iqiyi") || Spells(t, "baidu")
    {
      var text := Text(data[NAME_OFFSET..], 0);
      BlockedIff(text);
      BlockedWords(text);
      blocked := Find(text, Ascii("taobao")).Some? ||
                 Find(text, Ascii("qq")).Some? ||
                 Find(text, Ascii("sogou")).Some? ||
                 Find(text, Ascii("amap")).Some? ||
                 Find(text, Ascii("alipay")).Some? ||
                 Find(text, Ascii("youku")).Some? ||
                 Find(text, Ascii("iqiyi")).Some? ||
                 Find(text, Ascii("baidu")).Some?;
    }

    /** Edits the header in place and appends the answer record. */
    method BuildReply(size: nat) returns (len: nat)
      requires data.Length == BUFFER_SIZE && size <= RECV_MAX
      modifies data
      ensures len == size + 16
      ensures data[..] == Reply(old(data[..size])) + old(data[size + 16..])
    {
      ghost var packet, tail := data[..size], data[size + 16..];
      data[2] := SetTopBit(data[2]);
      data[3] := SetTopBit(data[3]);
      data[7] := 1;
      assert forall i :: 0 <= i < size ==> data[i] == EditedByte(packet, i);
      assert data[..size] == Reply(packet)[..size];
      assert data[size + 16..] == tail;
      len := AppendAnswer(size);
    }

    /** The sixteen appends, four at a time. */
    method AppendAnswer(size: nat) returns (len: nat)
      requires data.Length == BUFFER_SIZE && size <= RECV_MAX
      modifies data
      ensures len == size + 16
      ensures data[..] == Splice(old(data[..]), size, ANSWER)
    {
      SplicedAnswer(data[..], size);
      len := Append(size, 0xc0, 0x0c, 0x00, 0x01);
      len := Append(len, 0x00, 0x01, 0x00, 0x00);
      len := Append(len, 0x00, 0x0A, 0x00, 0x04);
      len := Append(len, 192, 168, 4, 1);
    }

    method Append(at: nat, b0: byte, b1: byte, b2: byte, b3: byte) returns (len: nat)
      requires data.Length == BUFFER_SIZE && at + 4 <= BUFFER_SIZE
      modifies data
      ensures len == at + 4
      ensures data[..] == Splice(old(data[..]), at, [b0, b1, b2, b3])
    {
      len := at;
      data[len] := b0; len := len + 1;
      data[len] := b1; len := len + 1;
      data[len] := b2; len := len + 1;
      data[len] := b3; len := len + 1;
    }

    /** One pass of the loop: receive, filter, reply. */
    method Serve(datagram: Option<seq<byte>>) returns (o: Outcome)
      requires data.Length == BUFFER_SIZE
      modifies data
      ensures o == Step(old(data[..]), datagram)
      ensures data[..] == BufferAfter(old(data[..]), datagram)
    {
      if datagram.None? {
        return NoPacket;
      }
      ghost var stale := data[..];
      var packet := Truncated(datagram.value);
      var len := |packet|;
      forall i | 0 <= i < len {
        data[i] := packet[i];
      }
      assert data[..] == packet + stale[len..];
      assert data[..len] == packet;
      assert data[NAME_OFFSET..] == data[..][NAME_OFFSET..];
      if 0 !in data[NAME_OFFSET..] {
        return Overread;
      }
      var blocked := IsBlocked();
      if blocked {
        return Dropped;
      }
      len := BuildReply(len);
      o := Answered(data[..len]);
      assert data[..] == Reply(packet) + (packet + stale[|packet|..])[len..];
    }

    /** The endless loop, cut after any number of passes. */
    method ServeAll(datagrams: seq<Option<seq<byte>>>) returns (os: seq<Outcome>)
      requires data.Length == BUFFER_SIZE
      modifies data
      ensures os == Run(old(data[..]), datagrams)
      ensures data[..] == Buffer(old(data[..]), datagrams)
    {
      os := [];
      ghost var start := data[..];
      for i := 0 to |datagrams|
        invariant Run(start, datagrams) == os + Run(data[..], datagrams[i..])
        invariant Buffer(start, datagrams) == Buffer(data[..], datagrams[i..])
      {
        RunFrom(data[..], datagrams, i);
        var o := Serve(datagrams[i]);
        os := os + [o];
      }
    }
  }

  ghost function Run(stale: seq<byte>, datagrams: seq<Option<seq<byte>>>): (os: seq<Outcome>)
    requires |stale| == BUFFER_SIZE
    ensures |os| == |datagrams|
    decreases |datagrams|
  {
    if datagrams == [] then [] else
    [Step(stale, datagrams[0])] + Run(BufferAfter(stale, datagrams[0]), datagrams[1..])
  }

  /** What the buffer holds after a run. */
  ghost function Buffer(stale: seq<byte>, datagrams: seq<Option<seq<byte>>>): (b: seq<byte>)
    requires |stale| == BUFFER_SIZE
    ensures |b| == BUFFER_SIZE
    decreases |datagrams|
  {
    if datagrams == [] then stale else Buffer(BufferAfter(stale, datagrams[0]), datagrams[1..])
  }

  lemma RunFrom(stale: seq<byte>, datagrams: seq<Option<seq<byte>>>, i: nat)
    requires |stale| == BUFFER_SIZE && i < |datagrams|
    ensures Run(stale, datagrams[i..]) ==
            [Step(stale, datagrams[i])] + Run(BufferAfter(stale, datagrams[i]), datagrams[i + 1..])
    ensures Buffer(stale, datagrams[i..]) == Buffer(BufferAfter(stale, datagrams[i]), datagrams[i + 1..])
  {
    assert datagrams[i..][0] == datagrams[i] && datagrams[i..][1..] == datagrams[i + 1..];
  }

  // ----- The packet alone decides, exactly when it ends the searched string -----

  lemma TerminatedDecides(stale: seq<byte>, packet: seq<byte>)
    requires |stale| == BUFFER_SIZE && |packet| <= RECV_MAX && Terminated(packet)
    ensures Respond(stale, packet) == Verdict(packet)
  {
    var memory := packet + stale[|packet|..];
    var own := packet[NAME_OFFSET..];
    var n := TextLength(own, 0);
    assert memory[NAME_OFFSET..] == own + stale[|packet|..];
    assert memory[NAME_OFFSET..][n] == own[n] == 0;
    assert memory[NAME_OFFSET..][..n] == own[..n];
    TextUnique(memory[NAME_OFFSET..], 0, n);
  }

  /** The outcome for a packet is the same over every stale buffer if and only if the packet
      has a zero byte at offset 12 or later. */
  lemma IndependentIffTerminated(packet: seq<byte>)
    requires |packet| <= RECV_MAX
    ensures Terminated(packet) <==>
            forall s, t :: |s| == BUFFER_SIZE && |t| == BUFFER_SIZE ==> Respond(s, packet) == Respond(t, packet)
  {
    if Terminated(packet) {
      forall s, t | |s| == BUFFER_SIZE && |t| == BUFFER_SIZE ensures Respond(s, packet) == Respond(t, packet) {
        TerminatedDecides(s, packet);
        TerminatedDecides(t, packet);
      }
    } else {
      var s: seq<byte>, t: seq<byte> := seq(BUFFER_SIZE, i => 0), seq(BUFFER_SIZE, i => 1);
      var m, n := packet + s[|packet|..], packet + t[|packet|..];
      assert m[NAME_OFFSET..][BUFFER_SIZE - 1 - NAME_OFFSET] == 0;
      forall k | NAME_OFFSET <= k < BUFFER_SIZE ensures n[k] != 0 {
        if k < |packet| {
          assert packet[k] == packet[NAME_OFFSET..][k - NAME_OFFSET];
        }
      }
      assert Respond(t, packet) == Overread;
      assert Respond(s, packet) != Respond(t, packet);
    }
  }

  // ----- When stale bytes decide -----

  ghost function Memory(stale: seq<byte>, packet: seq<byte>): (m: seq<byte>)
    requires |stale| == BUFFER_SIZE && |packet| <= RECV_MAX
    ensures |m| == BUFFER_SIZE
  {
    packet + stale[|packet|..]
  }

  /** The search stays inside the array. */
  ghost predicate InBounds(stale: seq<byte>, packet: seq<byte>)
    requires |stale| == BUFFER_SIZE && |packet| <= RECV_MAX
  {
    0 in Memory(stale, packet)[NAME_OFFSET..]
  }

  /** The packet's own bytes among those searched. */
  function OwnText(packet: seq<byte>): seq<byte> {
    if |packet| <= NAME_OFFSET then [] else packet[NAME_OFFSET..]
  }

  ghost predicate SameDecision(packet: seq<byte>)
    requires |packet| <= RECV_MAX
  {
    forall s, t :: |s| == BUFFER_SIZE && |t| == BUFFER_SIZE && InBounds(s, packet) && InBounds(t, packet) ==>
      Respond(s, packet) == Respond(t, packet)
  }

  /** A packet without a terminator is searched together with the stale text behind it. */
  lemma TextOver(stale: seq<byte>, packet: seq<byte>, tail: seq<byte>)
    requires |stale| == BUFFER_SIZE && |packet| <= RECV_MAX && !Terminated(packet) && 0 !in tail
    requires var n := NAME_OFFSET + |OwnText(packet)|;
             n + |tail| < BUFFER_SIZE && stale[n..n + |tail|] == tail && stale[n + |tail|] == 0
    ensures InBounds(stale, packet)
    ensures Text(Memory(stale, packet)[NAME_OFFSET..], 0) == OwnText(packet) + tail
  {
    var own := OwnText(packet);
    var searched := Memory(stale, packet)[NAME_OFFSET..];
    var n := |own| + |tail|;
    assert searched[n] == stale[NAME_OFFSET + n] == 0;
    forall k | 0 <= k < n ensures searched[k] == (own + tail)[k] {
      if k >= |own| {
        var from := NAME_OFFSET + |own|;
        assert searched[k] == stale[NAME_OFFSET + k] == stale[from..from + |tail|][k - |own|];
      }
    }
    assert searched[..n] == own + tail;
    assert 0 !in own;
    TextUnique(searched, 0, n);
  }

  lemma BlockedPrefix(text: seq<byte>, n: nat)
    requires n <= |text| && Blocked(text[..n])
    ensures Blocked(text)
  {
    var i :| 0 <= i < |BLOCKED_WORDS| && Contains(text[..n], BLOCKED_WORDS[i]);
    assert text[..n] == text[0..n];
    ContainsPart(text, BLOCKED_WORDS[i], 0, n);
  }

  /** A blocked word among the packet's own bytes gets it dropped over every buffer with a terminator. */
  lemma OwnWordDrops(stale: seq<byte>, packet: seq<byte>)
    requires |stale| == BUFFER_SIZE && |packet| <= RECV_MAX && InBounds(stale, packet)
    requires !Terminated(packet) && Blocked(OwnText(packet))
    ensures Respond(stale, packet) == Dropped
  {
    var own := OwnText(packet);
    var searched := Memory(stale, packet)[NAME_OFFSET..];
    var n := TextLength(searched, 0);
    assert searched[..|own|] == own;
    forall k | 0 <= k < |own| ensures searched[k] != 0 {
      assert searched[k] == own[k];
    }
    assert |own| <= n;
    assert searched[..n][..|own|] == own;
    BlockedPrefix(searched[..n], |own|);
  }

  /** The stale word "qq" behind any bytes makes a blocked text. */
  lemma StaleWordBlocks(own: seq<byte>)
    ensures Blocked(own + Ascii("qq"))
  {
    assert BLOCKED_WORDS[1] == Ascii("qq");
    OccursBehind(own, Ascii("qq"), []);
    assert own + Ascii("qq") + [] == own + Ascii("qq");
    assert Contains(own + Ascii("qq"), BLOCKED_WORDS[1]);
  }

  /** A packet that neither ends its string nor contains a blocked word is answered over one buffer and
      dropped over another. */
  lemma StaleBytesDecide(packet: seq<byte>) returns (s: seq<byte>, t: seq<byte>)
    requires |packet| <= RECV_MAX && !Terminated(packet) && !Blocked(OwnText(packet))
    ensures |s| == BUFFER_SIZE && InBounds(s, packet) && Respond(s, packet) == Answered(Reply(packet))
    ensures |t| == BUFFER_SIZE && InBounds(t, packet) && Respond(t, packet) == Dropped
  {
    var own, q := OwnText(packet), Ascii("qq");
    var n := NAME_OFFSET + |own|;
    s := seq(BUFFER_SIZE, i => 0);
    t := Splice(s, n, q);
    TextOver(s, packet, []);
    assert own + [] == own;
    assert t[n..n + 2] == q;
    TextOver(t, packet, q);
    StaleWordBlocks(own);
  }

  /** Over the buffers that keep the search inside the array, what the server does with a packet is the
      same if and only if the packet ends its string or itself contains a blocked word. */
  lemma DecisionIndependentIff(packet: seq<byte>)
    requires |packet| <= RECV_MAX
    ensures SameDecision(packet) <==> Terminated(packet) || Blocked(OwnText(packet))
  {
    if Terminated(packet) || Blocked(OwnText(packet)) {
      forall s, t | |s| == BUFFER_SIZE && |t| == BUFFER_SIZE && InBounds(s, packet) && InBounds(t, packet)
        ensures Respond(s, packet) == Respond(t, packet)
      {
        if Terminated(packet) {
          TerminatedDecides(s, packet);
          TerminatedDecides(t, packet);
        } else {
          OwnWordDrops(s, packet);
          OwnWordDrops(t, packet);
        }
      }
    } else {
      var s, t := StaleBytesDecide(packet);
      assert Respond(s, packet) != Respond(t, packet);
    }
  }

  /** Twelve header bytes of zeros in front of `text`. */
  function Raw(text: seq<byte>): (packet: seq<byte>)
    ensures |packet| == NAME_OFFSET + |text| && OwnText(packet) == text
  {
    seq(NAME_OFFSET, i => 0) + text
  }

  lemma ShortTextAllowed(text: seq<byte>)
    requires |text| <= 2 && text != Ascii("qq")
    ensures !Blocked(text)
  {
    forall i | 0 <= i < |BLOCKED_WORDS| ensures !Contains(text, BLOCKED_WORDS[i]) {
      var word := BLOCKED_WORDS[i];
      assert |word| >= 2 && (|word| == 2 ==> word == Ascii("qq"));
      forall k: nat ensures !OccursAt(text, word, k) {
        assert text[..] == text;
      }
    }
  }

  const FIRST: seq<byte> := Raw([122, 113, 0])
  const SECOND: seq<byte> := Raw([113])

  /** Two packets, neither of them containing a blocked word: from every initial buffer the first is
      answered, and what it leaves behind gets the second, answered on its own, dropped. */
  lemma FirstPacketDropsSecond(stale: seq<byte>)
    requires |stale| == BUFFER_SIZE
    ensures !Blocked(Text(OwnText(FIRST), 0)) && !Blocked(OwnText(SECOND))
    ensures Run(stale, [Some(FIRST), Some(SECOND)]) == [Answered(Reply(FIRST)), Dropped]
    ensures Run(seq(BUFFER_SIZE, i => 0), [Some(SECOND)]) == [Answered(Reply(SECOND))]
  {
    FirstAnswered(stale);
    SecondDropped(BufferAfter(stale, Some(FIRST)));
    RunOfTwo(stale, Some(FIRST), Some(SECOND));
    var zeros: seq<byte> := seq(BUFFER_SIZE, i => 0);
    SecondAnswered(zeros);
    RunOfOne(zeros, Some(SECOND));
  }

  lemma FirstAnswered(stale: seq<byte>)
    requires |stale| == BUFFER_SIZE
    ensures !Blocked(Text(OwnText(FIRST), 0)) && Respond(stale, FIRST) == Answered(Reply(FIRST))
    ensures var left := BufferAfter(stale, Some(FIRST)); left[13..14] == [113] && left[14] == 0
  {
    FirstAllowed(OwnText(FIRST));
    assert FIRST[NAME_OFFSET..][2] == 0;
    TerminatedDecides(stale, FIRST);
    LeavesReply(stale, FIRST, 13);
    LeavesReply(stale, FIRST, 14);
  }

  lemma FirstAllowed(own: seq<byte>)
    requires own == [122, 113, 0]
    ensures !Blocked(Text(own, 0))
  {
    assert own[..2] == [122, 113];
    TextUnique(own, 0, 2);
    assert Ascii("qq")[0] == 113 && own[..2][0] == 122;
    ShortTextAllowed(own[..2]);
  }

  /** An answered packet stays in the buffer behind its header. */
  lemma LeavesReply(stale: seq<byte>, packet: seq<byte>, i: nat)
    requires |stale| == BUFFER_SIZE && NAME_OFFSET <= i < |packet| <= RECV_MAX
    requires Respond(stale, packet).Answered?
    ensures BufferAfter(stale, Some(packet))[i] == packet[i]
  {
    assert Truncated(packet) == packet;
    assert Reply(packet)[i] == EditedByte(packet, i);
  }

  lemma SecondDropped(left: seq<byte>)
    requires |left| == BUFFER_SIZE && left[13..14] == [113] && left[14] == 0
    ensures Respond(left, SECOND) == Dropped
  {
    assert OwnText(SECOND) == [113];
    TextOver(left, SECOND, [113]);
    StaleWordBlocks([]);
    assert OwnText(SECOND) + [113] == [] + Ascii("qq");
  }

  lemma SecondAnswered(zeros: seq<byte>)
    requires zeros == seq(BUFFER_SIZE, i => 0)
    ensures !Blocked(OwnText(SECOND)) && Respond(zeros, SECOND) == Answered(Reply(SECOND))
  {
    assert OwnText(SECOND) == [113];
    ShortTextAllowed([113]);
    TextOver(zeros, SECOND, []);
    assert OwnText(SECOND) + [] == OwnText(SECOND);
  }

  lemma RunOfOne(stale: seq<byte>, d: Option<seq<byte>>)
    requires |stale| == BUFFER_SIZE
    ensures Run(stale, [d]) == [Step(stale, d)]
  {
    assert [d][1..] == [];
  }

  lemma RunOfTwo(stale: seq<byte>, d: Option<seq<byte>>, e: Option<seq<byte>>)
    requires |stale| == BUFFER_SIZE
    ensures Run(stale, [d, e]) == [Step(stale, d), Step(BufferAfter(stale, d), e)]
  {
    assert [d, e][1..] == [e];
    RunOfOne(BufferAfter(stale, d), e);
  }

  /** In every run from every initial buffer, a packet that ends its string gets the verdict that
      the packet alone decides, whatever came before it. */
  lemma {:induction false} RunIndependent(stale: seq<byte>, datagrams: seq<Option<seq<byte>>>, k: nat)
    requires |stale| == BUFFER_SIZE && k < |datagrams|
    requires datagrams[k].Some? && Terminated(Truncated(datagrams[k].value))
    ensures Run(stale, datagrams)[k] == Verdict(Truncated(datagrams[k].value))
    decreases k
  {
    if k == 0 {
      TerminatedDecides(stale, Truncated(datagrams[0].value));
    } else {
      RunIndependent(BufferAfter(stale, datagrams[0]), datagrams[1..], k - 1);
    }
  }

  // ----- The raw search agrees with the label view -----

  /** The labels a C string search can see: all of them, or those up to the first zero byte. */
  function Visible(name: Name): (v: Name) {
    if name == [] then []
    else if 0 in name[0] then [Text(name[0], 0)]
    else [name[0]] + Visible(name[1..])
  }

  ghost function Flat(name: Name, sizes: seq<byte>): (b: seq<byte>)
    requires |name| == |sizes|
  {
    if name == [] then [] else [sizes[0]] + name[0] + Flat(name[1..], sizes[1..])
  }

  /** The string that starts at the encoding of a name: its visible labels behind their length bytes. */
  lemma {:induction false} TextOfName(name: Name, rest: seq<byte>) returns (sizes: seq<byte>)
    requires WireName(name)
    ensures |sizes| == |Visible(name)| && forall i :: 0 <= i < |sizes| ==> 1 <= sizes[i] <= 63
    ensures Text(EncodeName(name) + rest, 0) == Flat(Visible(name), sizes)
    decreases |name|
  {
    var memory := EncodeName(name) + rest;
    if name == [] {
      sizes := [];
      TextUnique(memory, 0, 0);
    } else {
      EncodeNameUnfold(name);
      var size := |name[0]|;
      var later := EncodeName(name[1..]) + rest;
      assert memory == [size] + name[0] + later;
      if 0 in name[0] {
        sizes := [size];
        var n := TextLength(name[0], 0);
        assert memory[..n + 1] == [size] + name[0][..n];
        assert memory[n + 1] == name[0][n] == 0;
        TextUnique(memory, 0, n + 1);
      } else {
        var inner := TextOfName(name[1..], rest);
        sizes := [size] + inner;
        LabelThenText(size, name[0], later);
        assert sizes[1..] == inner;
        assert Visible(name)[1..] == Visible(name[1..]);
      }
    }
  }

  lemma LabelThenText(size: byte, first: Label, later: seq<byte>)
    requires size != 0 && 0 !in first
    ensures Text([size] + first + later, 0) == [size] + first + Text(later, 0)
  {
    var memory := [size] + first + later;
    var n := 1 + |first| + TextLength(later, 0);
    assert memory[..n] == [size] + first + Text(later, 0);
    TextUnique(memory, 0, n);
  }

  /** Length bytes below 64 keep every occurrence of a word of larger bytes inside one label. */
  lemma {:induction false} FlatContains(name: Name, sizes: seq<byte>, word: seq<byte>)
    requires |name| == |sizes| && word != []
    requires forall i :: 0 <= i < |sizes| ==> sizes[i] !in word
    ensures Contains(Flat(name, sizes), word) <==> exists i :: 0 <= i < |name| && Contains(name[i], word)
    decreases |name|
  {
    var flat := Flat(name, sizes);
    if name == [] {
      forall i: nat ensures !OccursAt(flat, word, i) {}
    } else {
      var later := Flat(name[1..], sizes[1..]);
      FlatContains(name[1..], sizes[1..], word);
      LabelsSplit(name, word);
      assert later != [] ==> later[0] == sizes[1];
      LabelThenRest(sizes[0], name[0], later, word);
    }
  }

  lemma LabelsSplit(name: Name, word: seq<byte>)
    requires name != []
    ensures (exists i :: 0 <= i < |name| && Contains(name[i], word)) <==>
            Contains(name[0], word) || exists i :: 0 <= i < |name[1..]| && Contains(name[1..][i], word)
  {
    if i :| 0 <= i < |name| && Contains(name[i], word) && i > 0 {
      assert Contains(name[1..][i - 1], word);
    }
    if i :| 0 <= i < |name[1..]| && Contains(name[1..][i], word) {
      assert Contains(name[i + 1], word);
    }
  }

  lemma LabelThenRest(size: byte, first: Label, later: seq<byte>, word: seq<byte>)
    requires word != [] && size !in word
    requires later != [] ==> later[0] !in word
    ensures Contains([size] + first + later, word) <==> Contains(first, word) || Contains(later, word)
  {
    assert [size] + (first + later) == [size] + first + later;
    ContainsBehind(size, first + later, word);
    if later == [] {
      assert first + later == first;
      assert forall i: nat :: !OccursAt(later, word, i);
    } else {
      var tail := later[1..];
      assert later == [later[0]] + tail;
      assert first + later == first + [later[0]] + tail;
      ContainsAround(first, later[0], tail, word);
      ContainsBehind(later[0], tail, word);
    }
  }

  lemma WordsAreLetters(i: nat)
    requires i < |BLOCKED_WORDS|
    ensures BLOCKED_WORDS[i] != []
    ensures forall k :: 0 <= k < |BLOCKED_WORDS[i]| ==> 97 <= BLOCKED_WORDS[i][k] <= 122
  {
  }

  ghost predicate NamesBlockedWord(name: Name) {
    exists i, k :: 0 <= i < |BLOCKED_WORDS| && 0 <= k < |name| && Contains(name[k], BLOCKED_WORDS[i])
  }

  /** For every name, whatever follows it, the raw search finds a blocked word if and only if
      one visible label contains it. */
  lemma FilterRefinesLabels(name: Name, rest: seq<byte>)
    requires WireName(name)
    ensures Blocked(Text(EncodeName(name) + rest, 0)) <==> NamesBlockedWord(Visible(name))
  {
    var sizes := TextOfName(name, rest);
    var labels := Visible(name);
    forall i | 0 <= i < |BLOCKED_WORDS|
      ensures Contains(Flat(labels, sizes), BLOCKED_WORDS[i]) <==>
              exists k :: 0 <= k < |labels| && Contains(labels[k], BLOCKED_WORDS[i])
    {
      WordsAreLetters(i);
      FlatContains(labels, sizes, BLOCKED_WORDS[i]);
    }
  }

  lemma {:induction false} AllVisible(name: Name)
    requires forall i :: 0 <= i < |name| ==> 0 !in name[i]
    ensures Visible(name) == name
  {
    if name != [] {
      AllVisible(name[1..]);
      assert name == [name[0]] + name[1..];
    }
  }
}
