/** What a resolver reads in the reply: the edited bytes agree with the structured message,
    and exactly when. */
module DnsReply {
  import opened CStrings
  import opened DnsMessage
  import opened DnsServer

  /** A packet that opens with one question, with any section counts and any bytes behind the question. */
  ghost function Query(id: u16, hi: byte, lo: byte, qd: u16, an: u16, ns: u16, ar: u16,
                       q: Question, extra: seq<byte>): (b: seq<byte>)
    requires WireName(q.name)
  {
    EncodeHeader(id, hi, lo, qd, an, ns, ar) + EncodeQuestion(q) + extra
  }

  /** The captive answer: same identifier and question, QR and RA set with every other flag kept,
      one A/IN record of TTL 10 that gives the asked name the address 192.168.4.1. */
  function Answer(id: u16, hi: byte, lo: byte, q: Question): Message {
    Message(id, FlagsOf(hi, lo).(qr := true, ra := true), [q],
            [Resource(q.name, 1, 1, 10, [192, 168, 4, 1])], [], [])
  }

  lemma TopBitFlags(hi: byte, lo: byte)
    ensures FlagsOf(SetTopBit(hi), SetTopBit(lo)) == FlagsOf(hi, lo).(qr := true, ra := true)
  {
    TopBit(hi);
    TopBit(lo);
  }

  lemma TopBit(b: byte)
    ensures SetTopBit(b) / 128 == 1
    ensures SetTopBit(b) / 8 % 16 == b / 8 % 16
    ensures SetTopBit(b) / 4 % 2 == b / 4 % 2
    ensures SetTopBit(b) / 2 % 2 == b / 2 % 2
    ensures SetTopBit(b) % 2 == b % 2
    ensures SetTopBit(b) / 16 % 8 == b / 16 % 8
    ensures SetTopBit(b) % 16 == b % 16
  {
    if b < 128 {
      assert (b + 128) / 8 == b / 8 + 16;
      assert (b + 128) / 16 == b / 16 + 8;
      assert (b + 128) / 4 == b / 4 + 32;
      assert (b + 128) / 2 == b / 2 + 64;
    }
  }

  ghost function ReplyHeader(id: u16, hi: byte, lo: byte, qd: u16, an: u16, ns: u16, ar: u16): (b: seq<byte>)
    ensures |b| == 12
  {
    EncodeHeader(id, SetTopBit(hi), SetTopBit(lo), qd, an / 256 * 256 + 1, ns, ar)
  }

  /** The edits touch the flags and the low byte of ANCOUNT and nothing else in front of the record. */
  lemma ReplyLayout(id: u16, hi: byte, lo: byte, qd: u16, an: u16, ns: u16, ar: u16, q: Question, extra: seq<byte>)
    requires WireName(q.name)
    ensures Reply(Query(id, hi, lo, qd, an, ns, ar, q, extra)) ==
            ReplyHeader(id, hi, lo, qd, an, ns, ar) + EncodeQuestion(q) + extra + ANSWER
  {
    var packet := Query(id, hi, lo, qd, an, ns, ar, q, extra);
    var header := ReplyHeader(id, hi, lo, qd, an, ns, ar);
    var edited := seq(|packet|, i requires 0 <= i < |packet| => EditedByte(packet, i));
    assert (an / 256 * 256 + 1) / 256 == an / 256;
    assert edited[..12] == header;
    assert edited[12..] == packet[12..] == EncodeQuestion(q) + extra;
    assert edited == edited[..12] + edited[12..];
  }

  lemma HeaderFields(id: u16, hi: byte, lo: byte, qd: u16, an: u16, ns: u16, ar: u16, rest: seq<byte>)
    ensures var m := EncodeHeader(id, hi, lo, qd, an, ns, ar) + rest;
            |m| >= 12 && U16At(m, 0) == id && m[2] == hi && m[3] == lo && U16At(m, 4) == qd &&
            U16At(m, 6) == an && U16At(m, 8) == ns && U16At(m, 10) == ar
  {
    var h := EncodeHeader(id, hi, lo, qd, an, ns, ar);
    assert h == [id / 256, id % 256, hi, lo, qd / 256, qd % 256, an / 256, an % 256, ns / 256, ns % 256, ar / 256, ar % 256];
  }

  /** The reply read up to the end of its question. */
  lemma ReplyQuestion(m: seq<byte>, header: seq<byte>, q: Question, rest: seq<byte>)
    requires WireName(q.name) && |header| == 12 && m == header + EncodeQuestion(q) + rest
    ensures DecodeQuestion(m, 12) == Some((q, 12 + |EncodeQuestion(q)|))
    ensures DecodeName(m, 12, 12) == Some((q.name, 12 + |EncodeName(q.name)|))
  {
    OccursBehind(header, EncodeQuestion(q), rest);
    DecodeEncodedQuestion(m, 12, q);
  }

  /** The appended record, wherever it stands behind the question, reads as the captive address. */
  lemma AnswerRecord(m: seq<byte>, at: nat, name: Name)
    requires at > 12 && OccursAt(m, ANSWER, at)
    requires DecodeName(m, 12, 12).Some? && DecodeName(m, 12, 12).value.0 == name
    ensures DecodeResource(m, at) == Some((Resource(name, 1, 1, 10, [192, 168, 4, 1]), at + 16))
  {
    RecordFields(m, at);
    PointerName(m, at);
    ResourceFields(m, at, name, at + 2);
  }

  lemma RecordFields(m: seq<byte>, at: nat)
    requires OccursAt(m, ANSWER, at)
    ensures m[at] == 0xc0 && m[at + 1] == 0x0c
    ensures U16At(m, at + 2) == 1 && U16At(m, at + 4) == 1 && U16At(m, at + 6) == 0 && U16At(m, at + 8) == 10
    ensures U16At(m, at + 10) == 4 && m[at + 12..at + 16] == [192, 168, 4, 1]
  {
    forall i | at <= i < at + 16 ensures m[i] == ANSWER[i - at] {
      OccursElement(m, ANSWER, at, i - at);
    }
  }

  lemma PointerName(m: seq<byte>, at: nat)
    requires at > 12 && at + 2 <= |m| && m[at] == 0xc0 && m[at + 1] == 0x0c && DecodeName(m, 12, 12).Some?
    ensures DecodeName(m, at, at) == Some((DecodeName(m, 12, 12).value.0, at + 2))
  {
  }

  lemma ResourceFields(m: seq<byte>, at: nat, name: Name, e: nat)
    requires e + 14 <= |m| && DecodeName(m, at, at) == Some((name, e))
    requires U16At(m, e) == 1 && U16At(m, e + 2) == 1 && U16At(m, e + 4) == 0 && U16At(m, e + 6) == 10
    requires U16At(m, e + 8) == 4
    ensures DecodeResource(m, at) == Some((Resource(name, 1, 1, 10, m[e + 10..e + 14]), e + 14))
  {
  }

  lemma DecodeAssembled(m: seq<byte>, qs: seq<Question>, e1: nat, an: seq<Resource>)
    requires |m| >= 12 && U16At(m, 8) == 0 && U16At(m, 10) == 0
    requires DecodeQuestions(m, 12, U16At(m, 4)) == Some((qs, e1))
    requires DecodeResources(m, e1, U16At(m, 6)) == Some((an, |m|))
    ensures Decode(m) == Some(Message(U16At(m, 0), FlagsOf(m[2], m[3]), qs, an, [], []))
  {
    assert DecodeResources(m, |m|, 0) == Some(([], |m|));
  }

  lemma QuestionAndRecord(m: seq<byte>, header: seq<byte>, q: Question)
    requires WireName(q.name) && |header| == 12 && m == header + EncodeQuestion(q) + ANSWER
    ensures DecodeQuestions(m, 12, 1) == Some(([q], 12 + |EncodeQuestion(q)|))
    ensures DecodeResources(m, 12 + |EncodeQuestion(q)|, 1) == Some(([Resource(q.name, 1, 1, 10, [192, 168, 4, 1])], |m|))
  {
    ReplyQuestion(m, header, q, ANSWER);
    var at := 12 + |EncodeQuestion(q)|;
    OccursBehind(header + EncodeQuestion(q), ANSWER, []);
    assert m + [] == m;
    AnswerRecord(m, at, q.name);
    SingleQuestion(m, 12);
    SingleRecord(m, at);
  }

  /** Bytes between question and record leave no single record that reads as the answer. */
  lemma ExtraBytesHideAnswer(m: seq<byte>, header: seq<byte>, q: Question, extra: seq<byte>)
    requires WireName(q.name) && |header| == 12 && m == header + EncodeQuestion(q) + extra + ANSWER
    requires DecodeResource(m, 12 + |EncodeQuestion(q)|) == Some((Resource(q.name, 1, 1, 10, [192, 168, 4, 1]), |m|))
    ensures extra == []
  {
    var at := 12 + |EncodeQuestion(q)|;
    assert m == header + EncodeQuestion(q) + (extra + ANSWER);
    ReplyQuestion(m, header, q, extra + ANSWER);
    var (name, end) := DecodeName(m, at, at).value;
    assert |m| == end + 14;
    assert m[end - 2] == ANSWER[0] && m[end - 1] == ANSWER[1];
    NameEndingInPointer(m, at, at);
  }

  /** A packet made of a header, one question, any bytes and the record reads as that question with
      that record if and only if the counts say so and the bytes in between are none. */
  lemma ReadsAsAnswerIff(m: seq<byte>, header: seq<byte>, q: Question, extra: seq<byte>)
    requires WireName(q.name) && |header| == 12 && m == header + EncodeQuestion(q) + extra + ANSWER
    ensures Decode(m) == Some(Message(U16At(m, 0), FlagsOf(m[2], m[3]), [q],
                                      [Resource(q.name, 1, 1, 10, [192, 168, 4, 1])], [], []))
            <==> U16At(m, 4) == 1 && U16At(m, 6) == 1 && U16At(m, 8) == 0 && U16At(m, 10) == 0 && extra == []
  {
    var rr := Resource(q.name, 1, 1, 10, [192, 168, 4, 1]);
    if U16At(m, 4) == 1 && U16At(m, 6) == 1 && U16At(m, 8) == 0 && U16At(m, 10) == 0 && extra == [] {
      assert m == header + EncodeQuestion(q) + ANSWER;
      QuestionAndRecord(m, header, q);
      DecodeAssembled(m, [q], 12 + |EncodeQuestion(q)|, [rr]);
    }
    if Decode(m) == Some(Message(U16At(m, 0), FlagsOf(m[2], m[3]), [q], [rr], [], [])) {
      ReadAnswerIsPlain(m, header, q, extra);
    }
  }

  lemma ReadAnswerIsPlain(m: seq<byte>, header: seq<byte>, q: Question, extra: seq<byte>)
    requires WireName(q.name) && |header| == 12 && m == header + EncodeQuestion(q) + extra + ANSWER
    requires Decode(m).Some? && Decode(m).value.questions == [q] && Decode(m).value.authority == []
    requires Decode(m).value.additional == [] && Decode(m).value.answers == [Resource(q.name, 1, 1, 10, [192, 168, 4, 1])]
    ensures U16At(m, 4) == 1 && U16At(m, 6) == 1 && U16At(m, 8) == 0 && U16At(m, 10) == 0 && extra == []
  {
    DecodedCounts(m);
    LoneSections(m);
    LoneRecordIsAnswer(m, header, q, extra);
  }

  lemma LoneSections(m: seq<byte>)
    requires Decode(m).Some? && |Decode(m).value.questions| == 1 && |Decode(m).value.answers| == 1
    requires Decode(m).value.authority == [] && Decode(m).value.additional == []
    ensures DecodeQuestion(m, 12).Some?
    ensures DecodeResource(m, DecodeQuestion(m, 12).value.1) == Some((Decode(m).value.answers[0], |m|))
  {
    DecodedCounts(m);
    SingleQuestion(m, 12);
    SingleRecord(m, DecodeQuestion(m, 12).value.1);
  }

  lemma LoneRecordIsAnswer(m: seq<byte>, header: seq<byte>, q: Question, extra: seq<byte>)
    requires WireName(q.name) && |header| == 12 && m == header + EncodeQuestion(q) + extra + ANSWER
    requires DecodeQuestion(m, 12).Some?
    requires DecodeResource(m, DecodeQuestion(m, 12).value.1) == Some((Resource(q.name, 1, 1, 10, [192, 168, 4, 1]), |m|))
    ensures extra == []
  {
    assert m == header + EncodeQuestion(q) + (extra + ANSWER);
    ReplyQuestion(m, header, q, extra + ANSWER);
    ExtraBytesHideAnswer(m, header, q, extra);
  }

  /** Whatever its counts and whatever follows its question, a query's reply reads as the captive
      answer if and only if it asks one question, ANCOUNT fits one byte, NSCOUNT and ARCOUNT are
      zero and nothing follows the question. */
  lemma ReplyCorrectIff(id: u16, hi: byte, lo: byte, qd: u16, an: u16, ns: u16, ar: u16, q: Question, extra: seq<byte>)
    requires WireName(q.name)
    ensures Decode(Reply(Query(id, hi, lo, qd, an, ns, ar, q, extra))) == Some(Answer(id, hi, lo, q))
            <==> qd == 1 && an < 256 && ns == 0 && ar == 0 && extra == []
  {
    var m := Reply(Query(id, hi, lo, qd, an, ns, ar, q, extra));
    var header := ReplyHeader(id, hi, lo, qd, an, ns, ar);
    var rest := EncodeQuestion(q) + extra + ANSWER;
    ReplyLayout(id, hi, lo, qd, an, ns, ar, q, extra);
    assert m == header + rest;
    ReplyFields(id, hi, lo, qd, an, ns, ar, rest);
    ReadsAsAnswerIff(m, header, q, extra);
  }

  lemma ReplyFields(id: u16, hi: byte, lo: byte, qd: u16, an: u16, ns: u16, ar: u16, rest: seq<byte>)
    ensures var m := ReplyHeader(id, hi, lo, qd, an, ns, ar) + rest;
            U16At(m, 0) == id && FlagsOf(m[2], m[3]) == FlagsOf(hi, lo).(qr := true, ra := true) &&
            U16At(m, 4) == qd && (U16At(m, 6) == 1 <==> an < 256) && U16At(m, 8) == ns && U16At(m, 10) == ar
  {
    HeaderFields(id, SetTopBit(hi), SetTopBit(lo), qd, an / 256 * 256 + 1, ns, ar, rest);
    TopBitFlags(hi, lo);
  }

  /** A decoded packet has as many entries in each section as its header counts. */
  lemma DecodedCounts(m: seq<byte>)
    requires Decode(m).Some?
    ensures var d := Decode(m).value;
            U16At(m, 4) == |d.questions| && U16At(m, 6) == |d.answers| &&
            U16At(m, 8) == |d.authority| && U16At(m, 10) == |d.additional|
    ensures var d, e1 := Decode(m).value, DecodeQuestions(m, 12, U16At(m, 4)).value.1;
            |d.authority| == 0 && |d.additional| == 0 ==> DecodeResources(m, e1, U16At(m, 6)) == Some((d.answers, |m|))
  {
  }

  /** The query itself decodes to its one question. */
  lemma PlainQueryDecodes(id: u16, hi: byte, lo: byte, q: Question)
    requires WireName(q.name)
    ensures Decode(Query(id, hi, lo, 1, 0, 0, 0, q, [])) == Some(Message(id, FlagsOf(hi, lo), [q], [], [], []))
  {
    var m := Query(id, hi, lo, 1, 0, 0, 0, q, []);
    var header := EncodeHeader(id, hi, lo, 1, 0, 0, 0);
    assert m == header + EncodeQuestion(q);
    HeaderFields(id, hi, lo, 1, 0, 0, 0, EncodeQuestion(q));
    ReplyQuestion(m, header, q, []);
    var at := 12 + |EncodeQuestion(q)|;
    SingleQuestion(m, 12);
  }

  /** One visible label contains a blocked word, exactly if the name does in the sense of the filter. */
  lemma NamesIff(v: Name)
    ensures NamesBlockedWord(v) <==>
            exists i :: 0 <= i < |v| && (Spells(v[i], "taobao") || Spells(v[i], "qq") || Spells(v[i], "sogou") ||
                              Spells(v[i], "amap") || Spells(v[i], "alipay") || Spells(v[i], "youku") ||
                              Spells(v[i], "iqiyi") || Spells(v[i], "baidu"))
  {
    forall i | 0 <= i < |v|
      ensures Blocked(v[i]) <==>
              (Spells(v[i], "taobao") || Spells(v[i], "qq") || Spells(v[i], "sogou") ||
                              Spells(v[i], "amap") || Spells(v[i], "alipay") || Spells(v[i], "youku") ||
                              Spells(v[i], "iqiyi") || Spells(v[i], "baidu"))
    {
      BlockedIff(v[i]);
    }
    if NamesBlockedWord(v) {
      var i, k :| 0 <= i < |BLOCKED_WORDS| && 0 <= k < |v| && Contains(v[k], BLOCKED_WORDS[i]);
      assert Blocked(v[k]);
    }
    if k :| 0 <= k < |v| && Blocked(v[k]) {
      var i :| 0 <= i < |BLOCKED_WORDS| && Contains(v[k], BLOCKED_WORDS[i]);
    }
  }

  lemma TruncatedQuery(id: u16, hi: byte, lo: byte, qd: u16, an: u16, ns: u16, ar: u16, q: Question, extra: seq<byte>)
    returns (kept: seq<byte>)
    requires WireName(q.name) && |Query(id, hi, lo, qd, an, ns, ar, q, [])| <= 100
    ensures Truncated(Query(id, hi, lo, qd, an, ns, ar, q, extra)) == Query(id, hi, lo, qd, an, ns, ar, q, kept)
    ensures kept == [] <==> extra == [] || |Query(id, hi, lo, qd, an, ns, ar, q, [])| == 100
  {
    var front := EncodeHeader(id, hi, lo, qd, an, ns, ar) + EncodeQuestion(q);
    assert Query(id, hi, lo, qd, an, ns, ar, q, []) == front;
    var room := 100 - |front|;
    kept := if |extra| <= room then extra else extra[..room];
    assert |front + extra| > 100 ==> (front + extra)[..100] == front + extra[..room];
  }

  /** In every run from every initial buffer, a query whose question ends within the 100 bytes received,
      whatever its counts and whatever follows its question, is dropped if and only if a visible label
      contains one of the eight words. */
  lemma QueryServed(stale: seq<byte>, datagrams: seq<Option<seq<byte>>>, k: nat, id: u16, hi: byte, lo: byte,
                    qd: u16, an: u16, ns: u16, ar: u16, q: Question, extra: seq<byte>)
    requires |stale| == 128 && k < |datagrams| && WireName(q.name)
    requires |Query(id, hi, lo, qd, an, ns, ar, q, [])| <= 100
    requires datagrams[k] == Some(Query(id, hi, lo, qd, an, ns, ar, q, extra))
    ensures var v, o := Visible(q.name), Run(stale, datagrams)[k];
            o == Dropped <==>
            exists i :: 0 <= i < |v| && (Spells(v[i], "taobao") || Spells(v[i], "qq") || Spells(v[i], "sogou") ||
                              Spells(v[i], "amap") || Spells(v[i], "alipay") || Spells(v[i], "youku") ||
                              Spells(v[i], "iqiyi") || Spells(v[i], "baidu"))
  {
    var kept := TruncatedQuery(id, hi, lo, qd, an, ns, ar, q, extra);
    QueryDecided(stale, datagrams, k, id, hi, lo, qd, an, ns, ar, q, kept);
    NamesIff(Visible(q.name));
  }

  /** A query that is not dropped is answered with 16 bytes more than were received, and the reply reads
      as the captive answer exactly when the query, as received, is plain. */
  lemma QueryAnswered(stale: seq<byte>, datagrams: seq<Option<seq<byte>>>, k: nat, id: u16, hi: byte, lo: byte,
                      qd: u16, an: u16, ns: u16, ar: u16, q: Question, extra: seq<byte>)
    requires |stale| == 128 && k < |datagrams| && WireName(q.name)
    requires |Query(id, hi, lo, qd, an, ns, ar, q, [])| <= 100
    requires datagrams[k] == Some(Query(id, hi, lo, qd, an, ns, ar, q, extra))
    ensures var size, o := |Query(id, hi, lo, qd, an, ns, ar, q, extra)|, Run(stale, datagrams)[k];
            o != Dropped ==>
            o.Answered? && |o.reply| == (if size <= 100 then size else 100) + 16 <= 128 &&
            (Decode(o.reply) == Some(Answer(id, hi, lo, q)) <==>
               qd == 1 && an < 256 && ns == 0 && ar == 0 &&
               (extra == [] || |Query(id, hi, lo, qd, an, ns, ar, q, [])| == 100))
  {
    var kept := TruncatedQuery(id, hi, lo, qd, an, ns, ar, q, extra);
    QueryDecided(stale, datagrams, k, id, hi, lo, qd, an, ns, ar, q, kept);
    ReplyCorrectIff(id, hi, lo, qd, an, ns, ar, q, kept);
  }

  lemma QueryDecided(stale: seq<byte>, datagrams: seq<Option<seq<byte>>>, k: nat, id: u16, hi: byte, lo: byte,
                     qd: u16, an: u16, ns: u16, ar: u16, q: Question, kept: seq<byte>)
    requires |stale| == BUFFER_SIZE && k < |datagrams| && WireName(q.name) && datagrams[k].Some?
    requires Truncated(datagrams[k].value) == Query(id, hi, lo, qd, an, ns, ar, q, kept)
    ensures Run(stale, datagrams)[k] ==
            if NamesBlockedWord(Visible(q.name)) then Dropped else Answered(Reply(Query(id, hi, lo, qd, an, ns, ar, q, kept)))
  {
    var header, name, tail := EncodeHeader(id, hi, lo, qd, an, ns, ar), EncodeName(q.name), U16(q.qtype) + U16(q.qclass) + kept;
    QuestionTail(header, name, U16(q.qtype), U16(q.qclass), kept);
    NameDecided(stale, datagrams, k, header, q.name, tail);
  }

  lemma QuestionTail(header: seq<byte>, name: seq<byte>, qtype: seq<byte>, qclass: seq<byte>, kept: seq<byte>)
    ensures header + (name + qtype + qclass) + kept == header + name + (qtype + qclass + kept)
  {
  }

  /** In every run, a packet whose name ends within the bytes received is decided by its visible labels,
      whatever stands in the header and behind the name. */
  lemma NameDecided(stale: seq<byte>, datagrams: seq<Option<seq<byte>>>, k: nat,
                    header: seq<byte>, name: Name, rest: seq<byte>)
    requires |stale| == BUFFER_SIZE && k < |datagrams| && WireName(name) && |header| == 12 && datagrams[k].Some?
    requires Truncated(datagrams[k].value) == header + EncodeName(name) + rest
    ensures Run(stale, datagrams)[k] ==
            if NamesBlockedWord(Visible(name)) then Dropped else Answered(Reply(header + EncodeName(name) + rest))
  {
    NameTerminates(header, name, rest);
    RunIndependent(stale, datagrams, k);
    FilterRefinesLabels(name, rest);
  }

  lemma NameTerminates(header: seq<byte>, name: Name, rest: seq<byte>)
    requires WireName(name) && |header| == 12
    ensures var packet := header + EncodeName(name) + rest;
            Terminated(packet) && packet[NAME_OFFSET..] == EncodeName(name) + rest
  {
    var packet, code := header + EncodeName(name) + rest, EncodeName(name);
    assert packet[NAME_OFFSET..] == code + rest;
    assert packet[NAME_OFFSET..][|code| - 1] == 0;
  }

  /** The shortest EDNS record: root name, type OPT, payload size 4096, no data. */
  const OPT: seq<byte> := [0, 0, 41, 16, 0, 0, 0, 0, 0, 0, 0]

  /** In every run an unblocked query that carries an EDNS record is answered, and the reply never
      reads as the captive answer. */
  lemma EdnsQueryMisread(stale: seq<byte>, datagrams: seq<Option<seq<byte>>>, k: nat, id: u16, hi: byte, lo: byte, q: Question)
    requires |stale| == 128 && k < |datagrams| && WireName(q.name)
    requires |Query(id, hi, lo, 1, 0, 0, 1, q, [])| <= 100
    requires datagrams[k] == Some(Query(id, hi, lo, 1, 0, 0, 1, q, OPT)) && Run(stale, datagrams)[k] != Dropped
    ensures Run(stale, datagrams)[k].Answered?
    ensures Decode(Run(stale, datagrams)[k].reply) != Some(Answer(id, hi, lo, q))
  {
    QueryAnswered(stale, datagrams, k, id, hi, lo, 1, 0, 0, 1, q, OPT);
  }
}
