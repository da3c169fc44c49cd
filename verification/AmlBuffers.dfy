/**
  The send buffers of one process: every destination fills one, every send slot holds
  one while it is being sent, and a flush exchanges the two. Nothing is written into a
  buffer that is being sent, and no two destinations fill the same one.
*/
module AmlBuffers {
  import opened Common

  const NSEND := 4
  const AGGR := 32768
  const WRAP := 65536

  /** Buffer numbers are kept in an unsigned short. */
  function UShort(n: nat): (r: nat)
    ensures r < WRAP && r <= n && (n < WRAP ==> r == n)
  {
    n % WRAP
  }

  /** memcpy into a buffer. */
  function Patched(buf: seq<Byte>, at: nat, bytes: seq<Byte>): (r: seq<Byte>)
    requires at + |bytes| <= |buf|
    ensures |r| == |buf| && r[..at] == buf[..at] && r[at..at + |bytes|] == bytes && r[..at + |bytes|] == buf[..at] + bytes
  {
    buf[..at] + bytes + buf[at + |bytes|..]
  }

  /** The buffers of the destinations and of the slots, taken together. */
  ghost function Numbers(nbuf: seq<nat>, activebuf: seq<nat>): (all: seq<nat>) {
    nbuf + activebuf
  }

  ghost predicate Apart(all: seq<nat>) {
    forall i, j :: 0 <= i < j < |all| ==> all[i] != all[j]
  }

  /** Exchanging two entries keeps all of them apart. */
  lemma SwapApart(all: seq<nat>, i: nat, j: nat)
    requires Apart(all) && i < |all| && j < |all|
    ensures Apart(all[i := all[j]][j := all[i]])
  {
  }

  class SendBuffers {
    const nodes: nat
    /** What is in each buffer; sendsize tells how much of it belongs to the messages being collected. */
    var data: seq<seq<Byte>>
    var nbuf: seq<nat>
    var sendsize: seq<nat>
    var activebuf: seq<nat>
    /** The length of the send in progress in a slot, or -1. */
    var sending: seq<int>
    /** What was sent for each destination since its last flush, and what each slot was told to send. */
    ghost var pending: seq<seq<Byte>>
    ghost var posted: seq<seq<Byte>>

    /** The part of aml_init that numbers the buffers. */
    constructor (nodes: nat)
      ensures this.nodes == nodes && Sized()
      ensures nbuf == seq<nat>(nodes, i requires 0 <= i < nodes => UShort(i)) &&
          activebuf == seq<nat>(NSEND, i requires 0 <= i < NSEND => UShort(nodes + i))
      ensures sendsize == seq(nodes, i => 0) && sending == seq(NSEND, i => -1) && pending == seq(nodes, i => [])
      ensures Valid() <==> nodes + NSEND <= WRAP
    {
      hide UShort, Apart, Numbers;
      this.nodes := nodes;
      data := seq(nodes + NSEND, i => seq(AGGR, j => 0));
      nbuf, sendsize := seq<nat>(nodes, i requires 0 <= i < nodes => UShort(i)), seq(nodes, i => 0);
      activebuf, sending := seq<nat>(NSEND, i requires 0 <= i < NSEND => UShort(nodes + i)), seq(NSEND, i => -1);
      pending, posted := seq(nodes, i => []), seq(NSEND, i => []);
      new;
      StartApart(nodes, nbuf, activebuf);
    }

    ghost predicate Sized()
      reads this
    {
      && |nbuf| == |sendsize| == |pending| == nodes && |activebuf| == |sending| == |posted| == NSEND && |data| == nodes + NSEND
      && (forall i :: 0 <= i < nodes ==> nbuf[i] < |data|) && (forall i :: 0 <= i < NSEND ==> activebuf[i] < |data|)
      && (forall b :: 0 <= b < |data| ==> |data[b]| == AGGR)
      && (forall i :: 0 <= i < nodes ==> sendsize[i] <= AGGR) && (forall i :: 0 <= i < NSEND ==> -1 <= sending[i] <= AGGR)
    }

    /** Every destination's buffer holds its messages, and every send in progress reads what it was given. */
    ghost predicate Intact()
      requires Sized()
      reads this
    {
      && (forall i :: 0 <= i < nodes ==> data[nbuf[i]][..sendsize[i]] == pending[i])
      && (forall i :: 0 <= i < NSEND && sending[i] >= 0 ==> data[activebuf[i]][..sending[i]] == posted[i])
    }

    ghost predicate Valid()
      reads this
    {
      Sized() && Intact() && Apart(Numbers(nbuf, activebuf))
    }

    /** The copying part of aml_send and aml_send_intra: a message goes behind those already collected. */
    method Append(node: nat, bytes: seq<Byte>)
      requires Sized() && node < nodes && sendsize[node] + |bytes| <= AGGR
      modifies this`data, this`sendsize, this`pending
      ensures pending == old(pending)[node := old(pending)[node] + bytes]
      ensures sendsize == old(sendsize)[node := old(sendsize)[node] + |bytes|]
      ensures data == old(data)[nbuf[node] := Patched(old(data)[nbuf[node]], old(sendsize)[node], bytes)]
      ensures Sized() && (old(Valid()) ==> Valid())
    {
      ghost var valid := Valid();
      var b := nbuf[node];
      data := data[b := Patched(data[b], sendsize[node], bytes)];
      sendsize := sendsize[node := sendsize[node] + |bytes|];
      pending := pending[node := pending[node] + bytes];
      if valid {
        Others(nbuf, activebuf, node);
      }
    }

    /** MPI_Testany finds that a send has ended; what left the process is what its slot was given. */
    method Complete(slot: nat) returns (sent: seq<Byte>)
      requires Sized() && slot < NSEND && sending[slot] >= 0
      modifies this`sending
      ensures sending == old(sending)[slot := -1] && sent == data[activebuf[slot]][..old(sending)[slot]]
      ensures Sized() && (old(Valid()) ==> Valid() && sent == posted[slot])
    {
      sent := data[activebuf[slot]][..sending[slot]];
      sending := sending[slot := -1];
    }

    /** flush_buffer and flush_buffer_intra, once a slot is free: the slot takes the buffer and gives its own. */
    method Flush(node: nat, slot: nat)
      requires Sized() && node < nodes && slot < NSEND && sending[slot] == -1
      modifies this`nbuf, this`activebuf, this`sendsize, this`sending, this`pending, this`posted
      ensures posted == old(posted)[slot := old(pending)[node]] && pending == old(pending)[node := []]
      ensures sending == old(sending)[slot := old(sendsize)[node]] && sendsize == old(sendsize)[node := 0]
      ensures nbuf == old(nbuf)[node := old(activebuf)[slot]] && activebuf == old(activebuf)[slot := old(nbuf)[node]]
      ensures Sized() && (old(Valid()) ==> Valid())
    {
      ghost var valid := Valid();
      posted, pending := posted[slot := pending[node]], pending[node := []];
      sending := sending[slot := sendsize[node]];
      sendsize := sendsize[node := 0];
      ghost var all := Numbers(nbuf, activebuf);
      var tmp := activebuf[slot];
      activebuf := activebuf[slot := nbuf[node]];
      nbuf := nbuf[node := tmp];
      if valid {
        SwapApart(all, node, nodes + slot);
        assert Numbers(nbuf, activebuf) == all[node := all[nodes + slot]][nodes + slot := all[node]];
      }
    }

    /** aml_send and aml_send_intra: what is collected is flushed first when the message does not fit behind it. */
    method Send(node: nat, bytes: seq<Byte>, slot: nat)
      requires Sized() && node < nodes && slot < NSEND && |bytes| <= AGGR
      requires sendsize[node] + |bytes| > AGGR ==> sending[slot] == -1
      modifies this
      ensures Sized() && (old(Valid()) ==> Valid())
      ensures old(sendsize)[node] + |bytes| <= AGGR ==>
        pending == old(pending)[node := old(pending)[node] + bytes] && posted == old(posted) && sending == old(sending)
      ensures old(sendsize)[node] + |bytes| > AGGR ==>
        && pending == old(pending)[node := bytes] && posted == old(posted)[slot := old(pending)[node]]
        && sending == old(sending)[slot := old(sendsize)[node]]
    {
      hide Intact, Apart;
      if AGGR - sendsize[node] < |bytes| {
        Flush(node, slot);
        assert [] + bytes == bytes;
      }
      Append(node, bytes);
    }
  }

  /** A destination's buffer is nobody else's. */
  lemma Others(nbuf: seq<nat>, activebuf: seq<nat>, node: nat)
    requires Apart(Numbers(nbuf, activebuf)) && node < |nbuf|
    ensures forall i :: 0 <= i < |nbuf| && i != node ==> nbuf[i] != nbuf[node]
    ensures forall i :: 0 <= i < |activebuf| ==> activebuf[i] != nbuf[node]
  {
    var all, n := Numbers(nbuf, activebuf), |nbuf|;
    forall i | 0 <= i < |activebuf| ensures activebuf[i] != nbuf[node] {
      assert all[n + i] == activebuf[i] && all[node] == nbuf[node];
    }
    forall i | 0 <= i < |nbuf| && i != node ensures nbuf[i] != nbuf[node] {
      assert all[i] == nbuf[i] && all[node] == nbuf[node];
    }
  }

  /** The first numbers are apart exactly when all of them fit an unsigned short. */
  lemma StartApart(nodes: nat, nbuf: seq<nat>, activebuf: seq<nat>)
    requires |nbuf| == nodes && forall i :: 0 <= i < nodes ==> nbuf[i] == UShort(i)
    requires |activebuf| == NSEND && forall i :: 0 <= i < NSEND ==> activebuf[i] == UShort(nodes + i)
    ensures Apart(Numbers(nbuf, activebuf)) <==> nodes + NSEND <= WRAP
    ensures forall i :: 0 <= i < nodes + NSEND ==> Numbers(nbuf, activebuf)[i] == UShort(i)
  {
    var all := Numbers(nbuf, activebuf);
    if nodes + NSEND > WRAP {
      assert all[0] == UShort(0) == 0 && all[WRAP] == UShort(WRAP) == 0;
    }
  }

  /** With more destinations a message of one overwrites a message of another. */
  method Overwritten(nodes: nat) returns (b: SendBuffers)
    requires nodes + NSEND > WRAP
    ensures b.nodes == nodes && b.Sized() && b.pending[0] == [7] && !b.Intact()
  {
    b := new SendBuffers(nodes);
    if nodes > WRAP {
      Clash(b, WRAP);
    } else {
      b.Append(1, [9]);
      assert b.activebuf[WRAP - nodes] == UShort(WRAP) == 0;
      b.Flush(1, WRAP - nodes);
      Clash(b, 1);
    }
  }

  /** Two destinations that share a buffer. */
  method Clash(b: SendBuffers, other: nat)
    requires b.Sized() && 0 < other < b.nodes && b.nbuf[other] == b.nbuf[0]
    requires b.pending[0] == [] && b.sendsize[0] == b.sendsize[other] == 0
    modifies b
    ensures b.Sized() && b.pending[0] == [7] && !b.Intact()
  {
    b.Append(0, [7]);
    b.Append(other, [8]);
    assert b.data[b.nbuf[0]][..1] == [8];
  }
}
