/** Packing of StatsD metric lines into UDP packets (src/stats/statsd.rs).
    A line is the sequence of its UTF-8 bytes, so `|line|` is what Rust's `len()` returns. */
module StatsdBatching {

  type byte = b: int | 0 <= b < 256

  type Line = seq<byte>

  type Packet = seq<byte>

  const NEWLINE: byte := 10

  const MAX_PACKET_SIZE: nat := 1400

  datatype Outcome = Sent(packets: nat) | SendFailed

  /** The bytes of a group of lines separated by single newlines. */
  function Joined(group: seq<Line>): Packet {
    if |group| == 0 then []
    else if |group| == 1 then group[0]
    else Joined(group[..|group| - 1]) + [NEWLINE] + group[|group| - 1]
  }

  /** Cuts a packet at every newline, as a StatsD server does. */
  function Split(p: Packet): (lines: seq<Line>)
    ensures |lines| >= 1
  {
    if p == [] then [[]]
    else if p[0] == NEWLINE then [[]] + Split(p[1..])
    else var rest := Split(p[1..]); [[p[0]] + rest[0]] + rest[1..]
  }

  function Flatten<T>(groups: seq<seq<T>>): seq<T> {
    if groups == [] then [] else groups[0] + Flatten(groups[1..])
  }

  /** What a server reads back from packets received in send order. */
  function Received(packets: seq<Packet>): seq<Line> {
    if packets == [] then [] else Split(packets[0]) + Received(packets[1..])
  }

  predicate Printable(lines: seq<Line>) {
    forall i :: 0 <= i < |lines| ==> lines[i] != [] && NEWLINE !in lines[i]
  }

  /** Every group of lines makes a packet within the limit. */
  predicate Fits(groups: seq<seq<Line>>) {
    forall i :: 0 <= i < |groups| ==> |Joined(groups[i])| <= MAX_PACKET_SIZE
  }

  // ---------------------------------------------------------------- the greedy packing

  /** The packets still to come when `batch` is open and `rest` has not been added yet. */
  function Pack(batch: Packet, rest: seq<Line>): seq<Packet>
    decreases |rest|
  {
    if rest == [] then if batch == [] then [] else [batch]
    else if batch == [] then Pack(rest[0], rest[1..])
    else if |batch| + |rest[0]| + 1 > MAX_PACKET_SIZE then [batch] + Pack(rest[0], rest[1..])
    else Pack(batch + [NEWLINE] + rest[0], rest[1..])
  }

  lemma PackNext(batch: Packet, lines: seq<Line>, k: nat)
    requires k < |lines|
    ensures var rest := lines[k + 1..];
            Pack(batch, lines[k..]) ==
            if batch == [] then Pack(lines[k], rest)
            else if |batch| + |lines[k]| + 1 > MAX_PACKET_SIZE then [batch] + Pack(lines[k], rest)
            else Pack(batch + [NEWLINE] + lines[k], rest)
  {
    assert lines[k..][1..] == lines[k + 1..];
  }

  lemma PackEnd(batch: Packet)
    ensures Pack(batch, []) == if batch == [] then [] else [batch]
  {
  }

  /** `export` over a socket whose k-th send succeeds exactly when `accepts(k)`.
      `sent` lists the packets the socket took, in order. */
  method Export(lines: seq<Line>, accepts: nat -> bool) returns (r: Outcome, sent: seq<Packet>)
    ensures sent <= Pack([], lines)
    ensures forall k :: 0 <= k < |sent| ==> accepts(k)
    ensures r.Sent? ==> r.packets == |sent| && sent == Pack([], lines)
    ensures r.SendFailed? ==> |sent| < |Pack([], lines)| && !accepts(|sent|)
  {
    hide Pack;
    var batch: Packet := [];
    sent := [];
    for k := 0 to |lines|
      invariant sent + Pack(batch, lines[k..]) == Pack([], lines)
      invariant forall i :: 0 <= i < |sent| ==> accepts(i)
    {
      var metric := lines[k];
      PackNext(batch, lines, k);
      ghost var open, rest := batch, lines[k + 1..];
      if batch != [] && |batch| + |metric| + 1 > MAX_PACKET_SIZE {
        if !accepts(|sent|) {
          return SendFailed, sent;
        }
        assert sent + ([open] + Pack(metric, rest)) == sent + [open] + Pack(metric, rest);
        sent := sent + [batch];
        batch := [];
      }
      if batch != [] {
        batch := batch + [NEWLINE];
      }
      batch := batch + metric;
      assert [] + metric == metric;
    }
    assert lines[|lines|..] == [];
    PackEnd(batch);
    if batch != [] {
      if !accepts(|sent|) {
        return SendFailed, sent;
      }
      sent := sent + [batch];
    }
    r := Sent(|sent|);
  }

  // ---------------------------------------------------------------- nothing is lost

  lemma {:induction false} SplitLine(line: Line)
    requires NEWLINE !in line
    ensures Split(line) == [line]
    decreases |line|
  {
    if line != [] {
      SplitLine(line[1..]);
      assert [line[0]] + line[1..] == line;
    }
  }

  /** `lines` with one more byte in front of its first line, or one more line for a newline. */
  function Prepend(b: byte, lines: seq<Line>): seq<Line>
    requires lines != []
  {
    if b == NEWLINE then [[]] + lines else [[b] + lines[0]] + lines[1..]
  }

  lemma PrependAppend(b: byte, head: seq<Line>, tail: seq<Line>)
    requires head != []
    ensures Prepend(b, head + tail) == Prepend(b, head) + tail
  {
    assert (head + tail)[1..] == head[1..] + tail;
  }

  lemma SplitCons(b: byte, p: Packet)
    ensures Split([b] + p) == Prepend(b, Split(p))
  {
    assert ([b] + p)[1..] == p;
  }

  lemma {:induction false} SplitAppend(p: Packet, q: Packet)
    ensures Split(p + [NEWLINE] + q) == Split(p) + Split(q)
    decreases |p|
  {
    if p == [] {
      assert p + [NEWLINE] + q == [NEWLINE] + q;
      SplitCons(NEWLINE, q);
    } else {
      var b, rest := p[0], p[1..];
      SplitAppend(rest, q);
      assert p + [NEWLINE] + q == [b] + (rest + [NEWLINE] + q) && p == [b] + rest;
      SplitCons(b, rest + [NEWLINE] + q);
      SplitCons(b, rest);
      PrependAppend(b, Split(rest), Split(q));
    }
  }

  /** The lines a server reads back after those of an open batch of `size` bytes: an empty line
      is lost where it would open a batch, and its place stays free. */
  function Surviving(size: nat, rest: seq<Line>): seq<Line>
    decreases |rest|
  {
    if rest == [] then []
    else if size == 0 || size + |rest[0]| + 1 > MAX_PACKET_SIZE then
      (if rest[0] == [] then [] else [rest[0]]) + Surviving(|rest[0]|, rest[1..])
    else [rest[0]] + Surviving(size + |rest[0]| + 1, rest[1..])
  }

  /** No empty line opens a batch: none comes first, nor right after a batch of 1400 bytes. */
  predicate NoEmptyOpens(size: nat, rest: seq<Line>)
    decreases |rest|
  {
    rest != [] ==>
      if size == 0 || size + |rest[0]| + 1 > MAX_PACKET_SIZE then rest[0] != [] && NoEmptyOpens(|rest[0]|, rest[1..])
      else NoEmptyOpens(size + |rest[0]| + 1, rest[1..])
  }

  predicate NoNewlines(lines: seq<Line>) {
    forall i :: 0 <= i < |lines| ==> NEWLINE !in lines[i]
  }

  lemma {:induction false} ReceivedSurviving(batch: Packet, rest: seq<Line>)
    requires NoNewlines(rest)
    ensures Received(Pack(batch, rest)) == (if batch == [] then [] else Split(batch)) + Surviving(|batch|, rest)
    decreases |rest|
  {
    if rest == [] {
      assert batch != [] ==> Received([batch]) == Split(batch) + Received([]);
    } else {
      var line, more := rest[0], rest[1..];
      SplitLine(line);
      ReceivedSurviving(line, more);
      if batch != [] {
        if |batch| + |line| + 1 > MAX_PACKET_SIZE {
          assert ([batch] + Pack(line, more))[1..] == Pack(line, more);
        } else {
          ReceivedSurviving(batch + [NEWLINE] + line, more);
          SplitAppend(batch, line);
        }
      }
    }
  }

  lemma {:induction false} AllSurviveIff(size: nat, rest: seq<Line>)
    ensures |Surviving(size, rest)| <= |rest|
    ensures Surviving(size, rest) == rest <==> NoEmptyOpens(size, rest)
    decreases |rest|
  {
    if rest != [] {
      var opens := size == 0 || size + |rest[0]| + 1 > MAX_PACKET_SIZE;
      var next := if opens then |rest[0]| else size + |rest[0]| + 1;
      AllSurviveIff(next, rest[1..]);
      assert rest == [rest[0]] + rest[1..];
      if !opens || rest[0] != [] {
        assert Surviving(size, rest) == [rest[0]] + Surviving(next, rest[1..]);
        assert Surviving(size, rest)[1..] == Surviving(next, rest[1..]);
      }
    }
  }

  lemma {:induction false} SplitHasNoNewlines(p: Packet)
    ensures NoNewlines(Split(p))
    decreases |p|
  {
    if p != [] {
      SplitHasNoNewlines(p[1..]);
    }
  }

  lemma {:induction false} ReceivedHasNoNewlines(packets: seq<Packet>)
    ensures NoNewlines(Received(packets))
    decreases |packets|
  {
    if packets != [] {
      SplitHasNoNewlines(packets[0]);
      ReceivedHasNoNewlines(packets[1..]);
    }
  }

  /** A server reads back exactly the lines sent if and only if no line holds a newline and no
      empty line opens a batch. */
  lemma LosslessIff(lines: seq<Line>)
    ensures Received(Pack([], lines)) == lines <==> (forall i :: 0 <= i < |lines| ==> 10 !in lines[i]) && NoEmptyOpens(0, lines)
  {
    ReceivedHasNoNewlines(Pack([], lines));
    if NoNewlines(lines) {
      ReceivedSurviving([], lines);
      AllSurviveIff(0, lines);
      assert [] + Surviving(0, lines) == Surviving(0, lines);
    }
  }

  lemma {:induction false} PrintableOpens(size: nat, rest: seq<Line>)
    requires Printable(rest)
    ensures NoEmptyOpens(size, rest)
    decreases |rest|
  {
    if rest != [] {
      PrintableOpens(|rest[0]|, rest[1..]);
      PrintableOpens(size + |rest[0]| + 1, rest[1..]);
    }
  }

  /** Splitting the packets on newline in send order gives every line back, once, in order. */
  lemma PacketsLoseNothing(lines: seq<Line>)
    requires Printable(lines)
    ensures Received(Pack([], lines)) == lines
  {
    PrintableOpens(0, lines);
    LosslessIff(lines);
  }

  // ---------------------------------------------------------------- packet sizes

  lemma {:induction false} OversizedPackets(batch: Packet, rest: seq<Line>, k: nat)
    requires k < |Pack(batch, rest)| && |Pack(batch, rest)[k]| > MAX_PACKET_SIZE
    ensures Pack(batch, rest)[k] in rest || (Pack(batch, rest)[k] == batch && |batch| > MAX_PACKET_SIZE)
    decreases |rest|
  {
    if rest != [] {
      var line, more := rest[0], rest[1..];
      if batch == [] {
        OversizedPackets(line, more, k);
      } else if |batch| + |line| + 1 > MAX_PACKET_SIZE {
        if k > 0 {
          OversizedPackets(line, more, k - 1);
        }
      } else {
        OversizedPackets(batch + [NEWLINE] + line, more, k);
      }
    }
  }

  /** A packet is over the limit only if it is one line that is over the limit by itself. */
  lemma OversizedPacketIsOneLine(lines: seq<Line>, k: nat)
    requires k < |Pack([], lines)| && |Pack([], lines)[k]| > 1400
    ensures Pack([], lines)[k] in lines
  {
    OversizedPackets([], lines, k);
  }

  // ---------------------------------------------------------------- optimality

  /** Packets used from a non-empty batch of `size` bytes on. */
  function Count(size: nat, rest: seq<Line>): nat
    decreases |rest|
  {
    if rest == [] then 1
    else if size + |rest[0]| + 1 > MAX_PACKET_SIZE then 1 + Count(|rest[0]|, rest[1..])
    else Count(size + |rest[0]| + 1, rest[1..])
  }

  /** The greedy loop uses no more than that; fewer where empty lines are lost. */
  lemma {:induction false} PackAtMost(batch: Packet, rest: seq<Line>)
    ensures |Pack(batch, rest)| <= Count(|batch|, rest)
    decreases |rest|
  {
    if rest != [] {
      var line, more := rest[0], rest[1..];
      PackAtMost(line, more);
      if batch == [] {
        CountMonotone(|line|, |line| + 1, more);
      } else if |batch| + |line| + 1 <= MAX_PACKET_SIZE {
        PackAtMost(batch + [NEWLINE] + line, more);
      }
    }
  }

  /** A fuller batch never helps, and never costs more than one packet. */
  lemma {:induction false} CountMonotone(s: nat, t: nat, rest: seq<Line>)
    requires s <= t
    ensures Count(s, rest) <= Count(t, rest) <= Count(s, rest) + 1
    decreases |rest|
  {
    if rest != [] {
      var l := |rest[0]|;
      if t + l + 1 <= MAX_PACKET_SIZE {
        CountMonotone(s + l + 1, t + l + 1, rest[1..]);
      } else if s + l + 1 <= MAX_PACKET_SIZE {
        CountMonotone(l, s + l + 1, rest[1..]);
      }
    }
  }

  /** Bytes added to an open packet by more lines, one newline before each. */
  function Extra(group: seq<Line>): nat {
    if group == [] then 0 else |group[0]| + 1 + Extra(group[1..])
  }

  lemma {:induction false} ExtraAppend(group: seq<Line>, line: Line)
    ensures Extra(group + [line]) == Extra(group) + |line| + 1
    decreases |group|
  {
    if group == [] {
      assert ([] + [line])[1..] == [];
    } else {
      ExtraAppend(group[1..], line);
      assert (group + [line])[1..] == group[1..] + [line];
    }
  }

  lemma {:induction false} JoinedLength(group: seq<Line>)
    requires group != []
    ensures |Joined(group)| == |group[0]| + Extra(group[1..])
    decreases |group|
  {
    if |group| > 1 {
      var front := group[..|group| - 1];
      JoinedLength(front);
      ExtraAppend(front[1..], group[|group| - 1]);
      assert front[1..] + [group[|group| - 1]] == group[1..];
    }
  }

  lemma {:induction false} CountAbsorbs(size: nat, open: seq<Line>, rest: seq<Line>)
    requires size + Extra(open) <= MAX_PACKET_SIZE
    ensures Count(size, open + rest) == Count(size + Extra(open), rest)
    decreases |open|
  {
    if open == [] {
      assert open + rest == rest;
    } else {
      CountAbsorbs(size + |open[0]| + 1, open[1..], rest);
      assert (open + rest)[1..] == open[1..] + rest;
    }
  }

  /** Greedy stays ahead: with a batch of `size` bytes open, the packets still needed are at
      most one more than those of any fitting way to cut the remaining lines. */
  lemma {:induction false} GreedyStaysAhead(size: nat, later: seq<seq<Line>>)
    requires Fits(later)
    ensures Count(size, Flatten(later)) <= 1 + |later|
    decreases |later|, 0
  {
    if later != [] {
      var group, rest := later[0], later[1..];
      if group == [] {
        assert Flatten(later) == Flatten(rest);
        GreedyStaysAhead(size, rest);
      } else {
        GroupCost(size, group, rest);
      }
    }
  }

  lemma {:induction false} GroupCost(size: nat, group: seq<Line>, rest: seq<seq<Line>>)
    requires group != [] && |Joined(group)| <= MAX_PACKET_SIZE && Fits(rest)
    ensures Count(|group[0]|, group[1..] + Flatten(rest)) <= 1 + |rest|
    ensures Count(size, group + Flatten(rest)) <= 2 + |rest|
    decreases |rest|, 1
  {
    var first, tail := |group[0]|, group[1..] + Flatten(rest);
    JoinedLength(group);
    CountAbsorbs(first, group[1..], Flatten(rest));
    GreedyStaysAhead(|Joined(group)|, rest);
    assert (group + Flatten(rest))[1..] == tail;
    if size + first + 1 <= MAX_PACKET_SIZE {
      CountMonotone(first, size + first + 1, tail);
    }
  }

  /** No way to cut the same lines, in order, into packets within the limit uses fewer packets. */
  lemma {:induction false} PackIsOptimal(lines: seq<Line>, other: seq<seq<Line>>)
    requires Flatten(other) == lines && forall i :: 0 <= i < |other| ==> |Joined(other[i])| <= 1400
    ensures |Pack([], lines)| <= |other|
    decreases |other|
  {
    if lines != [] {
      var group, rest := other[0], other[1..];
      if group == [] {
        PackIsOptimal(lines, rest);
      } else {
        GroupCost(0, group, rest);
        assert lines[0] == group[0] && lines[1..] == group[1..] + Flatten(rest);
        PackAtMost(lines[0], lines[1..]);
      }
    }
  }
}
