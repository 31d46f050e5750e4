/** What the responder's buffer holds in the course of a run, and when the search stays inside it. */
module DnsBuffer {
  import opened CStrings
  import opened DnsMessage
  import opened DnsServer

  // ----- Every byte comes from the last pass that reached it -----

  /** How many bytes, from the front, a pass with outcome `o` writes. */
  function Extent(datagram: Option<seq<byte>>, o: Outcome): (n: nat)
    ensures n <= 116
  {
    if datagram.None? then 0 else |Truncated(datagram.value)| + if o.Answered? then 16 else 0
  }

  /** The byte it writes at `p`: the received one unless the pass answers, which sets the top bits of
      bytes 2 and 3 and the answer count, and puts the record behind the packet. */
  function WrittenByte(datagram: Option<seq<byte>>, o: Outcome, p: nat): (b: byte)
    requires p < Extent(datagram, o)
  {
    var packet := Truncated(datagram.value);
    if p >= |packet| then [0xc0, 0x0c, 0, 1, 0, 1, 0, 0, 0, 10, 0, 4, 192, 168, 4, 1][p - |packet|]
    else if o.Answered? && p == 7 then 1
    else if o.Answered? && (p == 2 || p == 3) && packet[p] < 128 then packet[p] + 128
    else packet[p]
  }

  lemma OnePass(stale: seq<byte>, datagram: Option<seq<byte>>, p: nat)
    requires |stale| == 128 && p < 128
    ensures BufferAfter(stale, datagram)[p] ==
            var o := Step(stale, datagram); if p < Extent(datagram, o) then WrittenByte(datagram, o, p) else stale[p]
  {
    if datagram.Some? && Step(stale, datagram).Answered? && p < |Truncated(datagram.value)| {
      assert Reply(Truncated(datagram.value))[p] == EditedByte(Truncated(datagram.value), p);
    }
  }

  lemma {:induction false} Untouched(stale: seq<byte>, datagrams: seq<Option<seq<byte>>>, p: nat)
    requires |stale| == 128 && p < 128
    requires forall k :: 0 <= k < |datagrams| ==> Extent(datagrams[k], Run(stale, datagrams)[k]) <= p
    ensures Buffer(stale, datagrams)[p] == stale[p]
    decreases |datagrams|
  {
    if datagrams != [] {
      var next, rest := BufferAfter(stale, datagrams[0]), datagrams[1..];
      OnePass(stale, datagrams[0], p);
      assert Extent(datagrams[0], Run(stale, datagrams)[0]) <= p;
      forall k | 0 <= k < |rest| ensures Extent(rest[k], Run(next, rest)[k]) <= p {
        assert Extent(datagrams[k + 1], Run(stale, datagrams)[k + 1]) <= p;
      }
      Untouched(next, rest, p);
    }
  }

  /** In every run, a byte of the buffer is what the last pass whose extent covers it wrote there. */
  lemma {:induction false} LastWriter(stale: seq<byte>, datagrams: seq<Option<seq<byte>>>, p: nat, j: nat)
    requires |stale| == 128 && p < 128 && j < |datagrams|
    requires p < Extent(datagrams[j], Run(stale, datagrams)[j])
    requires forall k :: j < k < |datagrams| ==> Extent(datagrams[k], Run(stale, datagrams)[k]) <= p
    ensures Buffer(stale, datagrams)[p] == WrittenByte(datagrams[j], Run(stale, datagrams)[j], p)
    decreases j
  {
    var next, rest := BufferAfter(stale, datagrams[0]), datagrams[1..];
    forall k | 0 <= k < |rest| && j <= k ensures Extent(rest[k], Run(next, rest)[k]) <= p {
      assert Extent(datagrams[k + 1], Run(stale, datagrams)[k + 1]) <= p;
    }
    if j == 0 {
      OnePass(stale, datagrams[0], p);
      Untouched(next, rest, p);
    } else {
      LastWriter(next, rest, p, j - 1);
    }
  }

  // ----- When the search stays inside the array -----

  lemma LastTwelveKept(stale: seq<byte>, datagram: Option<seq<byte>>)
    requires |stale| == 128
    ensures BufferAfter(stale, datagram)[116..] == stale[116..]
  {
    forall p | 116 <= p < 128 ensures BufferAfter(stale, datagram)[p] == stale[p] {
      OnePass(stale, datagram, p);
    }
  }

  /** A zero among the last twelve bytes ends every search of every run. */
  lemma {:induction false} SearchEnds(stale: seq<byte>, datagrams: seq<Option<seq<byte>>>, k: nat)
    requires |stale| == 128 && k < |datagrams| && 0 in stale[116..]
    ensures Run(stale, datagrams)[k] != Overread
    decreases k
  {
    if k > 0 {
      LastTwelveKept(stale, datagrams[0]);
      SearchEnds(BufferAfter(stale, datagrams[0]), datagrams[1..], k - 1);
    } else if datagrams[0].Some? {
      var packet := Truncated(datagrams[0].value);
      assert (packet + stale[|packet|..])[116..] == stale[116..];
      assert (packet + stale[|packet|..])[12..][104..] == stale[116..];
    }
  }

  function Repeated(n: nat, b: byte): (packet: seq<byte>)
    ensures |packet| == n && forall i :: 0 <= i < n ==> packet[i] == b
  {
    seq(n, i => b)
  }

  lemma {:induction false} RunAppend(stale: seq<byte>, ds: seq<Option<seq<byte>>>, d: Option<seq<byte>>)
    requires |stale| == 128
    ensures Run(stale, ds + [d]) == Run(stale, ds) + [Step(Buffer(stale, ds), d)]
    ensures Buffer(stale, ds + [d]) == BufferAfter(Buffer(stale, ds), d)
    decreases |ds|
  {
    if ds == [] {
      assert [] + [d] == [d];
      RunOfOne(stale, d);
    } else {
      assert (ds + [d])[1..] == ds[1..] + [d];
      RunAppend(BufferAfter(stale, ds[0]), ds[1..], d);
    }
  }

  /** Passes that leave addresses, four bytes each, in front of byte 116. */
  function Fillers(m: nat): (ds: seq<Option<seq<byte>>>)
    requires m <= 4
    ensures |ds| == m
  {
    if m == 0 then [] else Fillers(m - 1) + [Some(Repeated(104 - 4 * m, 0))]
  }

  /** No zero in the `size` bytes in front of byte 116, and the bytes behind them as in `stale`. */
  ghost predicate Filled(left: seq<byte>, stale: seq<byte>, size: nat) {
    && |left| == |stale| == 128 && size <= 116
    && (forall p :: 116 - size <= p < 116 ==> left[p] != 0)
    && (forall p :: 116 <= p < 128 ==> left[p] == stale[p])
  }

  lemma {:induction false} FillersFill(stale: seq<byte>, m: nat)
    requires |stale| == 128 && m <= 4
    ensures Filled(Buffer(stale, Fillers(m)), stale, 4 * m)
  {
    if m > 0 {
      FillersFill(stale, m - 1);
      RunAppend(stale, Fillers(m - 1), Some(Repeated(104 - 4 * m, 0)));
      OneMoreFilled(Buffer(stale, Fillers(m - 1)), stale, 104 - 4 * m);
    }
  }

  /** Answering `n` zero bytes leaves the address in bytes n + 12 to n + 15 and keeps what follows. */
  lemma OneMoreFilled(left: seq<byte>, stale: seq<byte>, n: nat)
    requires 12 < n <= 100 && Filled(left, stale, 100 - n)
    ensures Filled(BufferAfter(left, Some(Repeated(n, 0))), stale, 104 - n)
  {
    var d := Some(Repeated(n, 0));
    ZerosAnswered(left, d.value);
    forall p | n + 12 <= p < 128
      ensures if p < n + 16 then BufferAfter(left, d)[p] != 0 else BufferAfter(left, d)[p] == left[p]
    {
      OnePass(left, d, p);
    }
  }

  lemma ZerosAnswered(stale: seq<byte>, packet: seq<byte>)
    requires |stale| == 128 && 12 < |packet| <= 100 && forall i :: 0 <= i < |packet| ==> packet[i] == 0
    ensures Truncated(packet) == packet && Step(stale, Some(packet)).Answered?
  {
    assert packet[12..][0] == 0;
    TerminatedDecides(stale, packet);
    TextUnique(packet[12..], 0, 0);
    ShortTextAllowed([]);
  }

  /** Without such a zero, four of them and a packet of 100 ones leave no terminator at all. */
  lemma SearchRunsOut(stale: seq<byte>)
    requires |stale| == 128 && 0 !in stale[116..]
    ensures Run(stale, Fillers(4) + [Some(Repeated(100, 1))])[4] == Overread
  {
    FillersFill(stale, 4);
    RunAppend(stale, Fillers(4), Some(Repeated(100, 1)));
    OnesOverread(Buffer(stale, Fillers(4)), stale);
  }

  lemma OnesOverread(left: seq<byte>, stale: seq<byte>)
    requires Filled(left, stale, 16) && 0 !in stale[116..]
    ensures Step(left, Some(Repeated(100, 1))) == Overread
  {
    var packet := Repeated(100, 1);
    assert Truncated(packet) == packet;
    forall p | 12 <= p < 128 ensures (packet + left[100..])[p] != 0 {
      if p >= 116 {
        assert stale[p] == stale[116..][p - 116];
      }
    }
  }

  /** The buffer starts uninitialised and is never cleared. No run whatsoever takes the search past its
      end if and only if one of its last twelve bytes is zero to begin with. */
  lemma SearchInsideIff(stale: seq<byte>)
    requires |stale| == 128
    ensures (forall datagrams: seq<Option<seq<byte>>>, k: nat :: k < |datagrams| ==> Run(stale, datagrams)[k] != Overread)
            <==> 0 in stale[116..]
  {
    if 0 in stale[116..] {
      forall datagrams: seq<Option<seq<byte>>>, k: nat | k < |datagrams| ensures Run(stale, datagrams)[k] != Overread {
        SearchEnds(stale, datagrams, k);
      }
    } else {
      SearchRunsOut(stale);
      assert |Fillers(4) + [Some(Repeated(100, 1))]| == 5;
    }
  }
}
