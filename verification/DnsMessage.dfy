/** DNS messages as RFC 1035 lays them out: names as length-prefixed labels (section 3.1),
    the header (4.1.1), questions (4.1.2), resource records (4.1.3) and compression
    pointers (4.1.4). The decoder is the reference reading of a packet. */
module DnsMessage {
  import opened CStrings

  type byte = x: int | 0 <= x < 256
  type u16 = x: int | 0 <= x < 65536

  type Label = seq<byte>
  type Name = seq<Label>

  datatype Flags = Flags(qr: bool, opcode: nat, aa: bool, tc: bool, rd: bool, ra: bool, z: nat, rcode: nat)
  datatype Question = Question(name: Name, qtype: u16, qclass: u16)
  datatype Resource = Resource(name: Name, rtype: u16, rclass: u16, ttl: nat, rdata: seq<byte>)
  datatype Message = Message(id: u16, flags: Flags, questions: seq<Question>, answers: seq<Resource>,
                             authority: seq<Resource>, additional: seq<Resource>)

  /** Every label has 1 to 63 bytes. */
  ghost predicate WireName(name: Name) {
    forall i :: 0 <= i < |name| ==> 1 <= |name[i]| <= 63
  }

  function U16(x: u16): (b: seq<byte>) {
    [x / 256, x % 256]
  }

  function U16At(m: seq<byte>, i: nat): (x: u16)
    requires i + 1 < |m|
  {
    (m[i] as int) * 256 + m[i + 1] as int
  }

  function FlagsOf(hi: byte, lo: byte): Flags {
    Flags(hi / 128 == 1, hi / 8 % 16, hi / 4 % 2 == 1, hi / 2 % 2 == 1, hi % 2 == 1,
          lo / 128 == 1, lo / 16 % 8, lo % 16)
  }

  /** The labels of a name, each behind its length byte, without the root. */
  ghost function EncodeLabels(name: Name): (b: seq<byte>)
    requires WireName(name)
  {
    if name == [] then [] else [|name[0]|] + name[0] + EncodeLabels(name[1..])
  }

  ghost function EncodeName(name: Name): (b: seq<byte>)
    requires WireName(name)
  {
    EncodeLabels(name) + [0]
  }

  ghost function EncodeQuestion(q: Question): (b: seq<byte>)
    requires WireName(q.name)
  {
    EncodeName(q.name) + U16(q.qtype) + U16(q.qclass)
  }

  function EncodeHeader(id: u16, hi: byte, lo: byte, qd: u16, an: u16, ns: u16, ar: u16): (b: seq<byte>)
    ensures |b| == 12
  {
    U16(id) + [hi, lo] + U16(qd) + U16(an) + U16(ns) + U16(ar)
  }

  /** Reads the name at `at`; a pointer must lead strictly before `bound`, where the name began.
      Gives the name and the offset just behind it. */
  function DecodeName(m: seq<byte>, at: nat, bound: nat): (r: Option<(Name, nat)>)
    ensures r.Some? ==> at < r.value.1 <= |m|
    decreases bound, |m| - at
  {
    if at >= |m| then None
    else if m[at] == 0 then Some(([], at + 1))
    else if m[at] < 64 then
      if at + 1 + m[at] > |m| then None else
      var (rest, end) :- DecodeName(m, at + 1 + m[at], bound);
      Some(([m[at + 1..at + 1 + m[at]]] + rest, end))
    else if m[at] >= 192 && at + 1 < |m| then
      var target := (m[at] as int - 192) * 256 + m[at + 1] as int;
      if target >= bound then None else
      var (name, _) :- DecodeName(m, target, target);
      Some((name, at + 2))
    else None
  }

  function DecodeQuestion(m: seq<byte>, at: nat): (r: Option<(Question, nat)>) {
    var (name, end) :- DecodeName(m, at, at);
    if end + 4 > |m| then None else
    Some((Question(name, U16At(m, end), U16At(m, end + 2)), end + 4))
  }

  function DecodeResource(m: seq<byte>, at: nat): (r: Option<(Resource, nat)>) {
    var (name, end) :- DecodeName(m, at, at);
    if end + 10 > |m| then None else
    var size := U16At(m, end + 8);
    if end + 10 + size > |m| then None else
    var ttl := U16At(m, end + 4) * 65536 + U16At(m, end + 6);
    Some((Resource(name, U16At(m, end), U16At(m, end + 2), ttl, m[end + 10..end + 10 + size]), end + 10 + size))
  }

  function DecodeQuestions(m: seq<byte>, at: nat, count: nat): (r: Option<(seq<Question>, nat)>)
    ensures r.Some? ==> |r.value.0| == count
    decreases count
  {
    if count == 0 then Some(([], at)) else
    var (q, next) :- DecodeQuestion(m, at);
    var (qs, end) :- DecodeQuestions(m, next, count - 1);
    Some(([q] + qs, end))
  }

  function DecodeResources(m: seq<byte>, at: nat, count: nat): (r: Option<(seq<Resource>, nat)>)
    ensures r.Some? ==> |r.value.0| == count
    decreases count
  {
    if count == 0 then Some(([], at)) else
    var (rr, next) :- DecodeResource(m, at);
    var (rrs, end) :- DecodeResources(m, next, count - 1);
    Some(([rr] + rrs, end))
  }

  /** Reads a whole packet; bytes left over behind the last record are an error. */
  function Decode(m: seq<byte>): (r: Option<Message>) {
    if |m| < 12 then None else
    var (qs, e1) :- DecodeQuestions(m, 12, U16At(m, 4));
    var (an, e2) :- DecodeResources(m, e1, U16At(m, 6));
    var (ns, e3) :- DecodeResources(m, e2, U16At(m, 8));
    var (ar, e4) :- DecodeResources(m, e3, U16At(m, 10));
    if e4 != |m| then None else
    Some(Message(U16At(m, 0), FlagsOf(m[2], m[3]), qs, an, ns, ar))
  }

  lemma EncodeNameUnfold(name: Name)
    requires WireName(name) && name != []
    ensures WireName(name[1..])
    ensures EncodeName(name) == [|name[0]|] + name[0] + EncodeName(name[1..])
  {
  }

  lemma DecodeLabel(m: seq<byte>, at: nat, bound: nat, first: Label, rest: Name, end: nat)
    requires 1 <= |first| <= 63 && at < |m| && m[at] == |first| && OccursAt(m, first, at + 1)
    requires DecodeName(m, at + 1 + |first|, bound) == Some((rest, end))
    ensures DecodeName(m, at, bound) == Some(([first] + rest, end))
  {
  }

  lemma RootName(m: seq<byte>, at: nat, bound: nat)
    requires OccursAt(m, EncodeName([]), at)
    ensures DecodeName(m, at, bound) == Some(([], at + 1))
  {
    OccursElement(m, EncodeName([]), at, 0);
  }

  lemma NameParts(m: seq<byte>, at: nat, name: Name)
    requires WireName(name) && name != [] && OccursAt(m, EncodeName(name), at)
    ensures WireName(name[1..]) && at < |m| && m[at] == |name[0]| && OccursAt(m, name[0], at + 1)
    ensures OccursAt(m, EncodeName(name[1..]), at + 1 + |name[0]|)
    ensures |EncodeName(name)| == 1 + |name[0]| + |EncodeName(name[1..])|
  {
    EncodeNameUnfold(name);
    var size := |name[0]|;
    OccursSplit(m, [size] + name[0], EncodeName(name[1..]), at);
    OccursSplit(m, [size], name[0], at);
    OccursElement(m, [size], at, 0);
  }

  /** Wherever the encoding of a name stands in a packet, the decoder reads that name back. */
  lemma {:induction false} DecodeEncodedName(m: seq<byte>, at: nat, bound: nat, name: Name)
    requires WireName(name) && OccursAt(m, EncodeName(name), at)
    ensures DecodeName(m, at, bound) == Some((name, at + |EncodeName(name)|))
    decreases |name|
  {
    if name == [] {
      RootName(m, at, bound);
    } else {
      NameParts(m, at, name);
      var first, rest := name[0], name[1..];
      DecodeEncodedName(m, at + 1 + |first|, bound, rest);
      DecodeLabel(m, at, bound, first, rest, at + |EncodeName(name)|);
      assert [first] + rest == name;
    }
  }

  lemma U16RoundTrip(m: seq<byte>, i: nat, x: u16)
    requires OccursAt(m, U16(x), i)
    ensures U16At(m, i) == x
  {
    OccursElement(m, U16(x), i, 0);
    OccursElement(m, U16(x), i, 1);
  }

  lemma DecodeEncodedQuestion(m: seq<byte>, at: nat, q: Question)
    requires WireName(q.name) && OccursAt(m, EncodeQuestion(q), at)
    ensures DecodeQuestion(m, at) == Some((q, at + |EncodeQuestion(q)|))
    ensures DecodeName(m, at, at) == Some((q.name, at + |EncodeName(q.name)|))
  {
    var name := EncodeName(q.name);
    OccursSplit(m, name + U16(q.qtype), U16(q.qclass), at);
    OccursSplit(m, name, U16(q.qtype), at);
    DecodeEncodedName(m, at, at, q.name);
    U16RoundTrip(m, at + |name|, q.qtype);
    U16RoundTrip(m, at + |name| + 2, q.qclass);
  }

  /** A name that ends in the two bytes C0 0C spells its own labels and then the name at offset 12. */
  lemma {:induction false} NameEndingInPointer(m: seq<byte>, at: nat, bound: nat)
    requires DecodeName(m, at, bound).Some? && DecodeName(m, 12, 12).Some?
    requires var end := DecodeName(m, at, bound).value.1;
             end >= 2 && m[end - 2] == 0xc0 && m[end - 1] == 0x0c
    ensures var name, first := DecodeName(m, at, bound).value.0, DecodeName(m, 12, 12).value.0;
            |name| >= |first| && name[|name| - |first|..] == first &&
            (|name| == |first| ==> DecodeName(m, at, bound).value.1 == at + 2)
    decreases |m| - at
  {
    if 0 < m[at] < 64 {
      NameEndingInPointer(m, at + 1 + m[at], bound);
      var name, first := DecodeName(m, at, bound).value.0, DecodeName(m, 12, 12).value.0;
      var rest := DecodeName(m, at + 1 + m[at], bound).value.0;
      assert name[|name| - |first|..] == rest[|rest| - |first|..];
    }
  }

  lemma SingleQuestion(m: seq<byte>, at: nat)
    ensures var r := DecodeQuestion(m, at);
            DecodeQuestions(m, at, 1) == if r.None? then None else Some(([r.value.0], r.value.1))
  {
    var r := DecodeQuestion(m, at);
    if r.Some? {
      assert [r.value.0] + [] == [r.value.0];
      assert DecodeQuestions(m, r.value.1, 0) == Some(([], r.value.1));
    }
  }

  lemma SingleRecord(m: seq<byte>, at: nat)
    ensures var r := DecodeResource(m, at);
            DecodeResources(m, at, 1) == if r.None? then None else Some(([r.value.0], r.value.1))
  {
    var r := DecodeResource(m, at);
    if r.Some? {
      assert [r.value.0] + [] == [r.value.0];
      assert DecodeResources(m, r.value.1, 0) == Some(([], r.value.1));
    }
  }
}
