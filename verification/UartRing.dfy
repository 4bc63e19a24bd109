/** The ring buffers of the JTAG UART driver: 2048 cells, an index where the producer stores next
    and one where the consumer takes next.  One cell stays empty, so at most 2047 bytes are held. */
module UartRing {

  import opened Bytes

  const BUF_LEN: nat := 2048

  datatype Ring = Ring(cells: seq<byte>, input: nat, output: nat)

  predicate RingOk(r: Ring) {
    |r.cells| == BUF_LEN && r.input < BUF_LEN && r.output < BUF_LEN
  }

  /** (i + n) % BUF_LEN for what the driver adds: never more than one turn. */
  function Wrap(i: nat): (r: nat)
    requires i < 2 * BUF_LEN
    ensures r < BUF_LEN
  {
    if i < BUF_LEN then i else i - BUF_LEN
  }

  lemma WrapIsMod(i: nat)
    requires i < 2 * BUF_LEN
    ensures Wrap(i) == i % BUF_LEN
  {
  }

  /** How far the producer is ahead of the consumer. */
  function Distance(input: nat, output: nat): (n: nat)
    requires input < BUF_LEN && output < BUF_LEN
    ensures n < BUF_LEN && (n == 0 <==> input == output)
  {
    if input >= output then input - output else input + BUF_LEN - output
  }

  function Held(r: Ring): nat
    requires RingOk(r)
  {
    Distance(r.input, r.output)
  }

  predicate Full(r: Ring)
    requires RingOk(r)
  {
    Wrap(r.input + 1) == r.output
  }

  /** The bytes held, oldest first. */
  function Contents(r: Ring): (s: seq<byte>)
    requires RingOk(r)
    ensures |s| == Held(r) && forall i :: 0 <= i < |s| ==> s[i] == r.cells[Wrap(r.output + i)]
  {
    seq(Held(r), i requires 0 <= i < Held(r) => r.cells[Wrap(r.output + i)])
  }

  // ---------------------------------------------------------------- producing

  /** One byte stored and published. */
  function Put(r: Ring, b: byte): (r1: Ring)
    requires RingOk(r)
    ensures RingOk(r1)
  {
    Ring(r.cells[r.input := b], Wrap(r.input + 1), r.output)
  }

  lemma PutAppends(r: Ring, b: byte)
    requires RingOk(r) && !Full(r)
    ensures Contents(Put(r, b)) == Contents(r) + [b]
  {
  }

  /** The bytes that can be stored in one piece, as the writer works it out from its copies of the indices. */
  function WriteChunk(input: nat, output: nat): (n: nat)
    requires input < BUF_LEN && output < BUF_LEN
    ensures input + n <= BUF_LEN && n <= BUF_LEN - 1 - Distance(input, output)
    ensures n == 0 <==> Distance(input, output) == BUF_LEN - 1
  {
    if input < output then output - 1 - input
    else if output > 0 then BUF_LEN - input
    else BUF_LEN - 1 - input
  }

  /** Storing in a free cell changes nothing that is held. */
  lemma StoreUnseen(r: Ring, k: nat, b: byte)
    requires RingOk(r) && r.input + k < BUF_LEN && k < BUF_LEN - 1 - Held(r)
    ensures Contents(r.(cells := r.cells[r.input + k := b])) == Contents(r)
  {
  }

  /** Publishing bytes already stored appends them. */
  lemma PublishAppends(r: Ring, data: seq<byte>)
    requires RingOk(r) && r.input + |data| <= BUF_LEN && |data| <= BUF_LEN - 1 - Held(r)
    requires forall k :: r.input <= k < r.input + |data| ==> r.cells[k] == data[k - r.input]
    ensures Contents(r.(input := Wrap(r.input + |data|))) == Contents(r) + data
  {
    var r1 := r.(input := Wrap(r.input + |data|));
    assert Held(r1) == Held(r) + |data|;
  }

  // ---------------------------------------------------------------- consuming

  /** The bytes that can be taken in one piece. */
  function ReadChunk(input: nat, output: nat): (n: nat)
    requires input < BUF_LEN && output < BUF_LEN
    ensures output + n <= BUF_LEN && n <= Distance(input, output) && (n == 0 <==> input == output)
  {
    if input >= output then input - output else BUF_LEN - output
  }

  lemma CellIsContents(r: Ring, k: nat)
    requires RingOk(r) && k < Held(r) && r.output + k < BUF_LEN
    ensures r.cells[r.output + k] == Contents(r)[k]
  {
  }

  /** Publishing that n bytes were taken drops them. */
  lemma TakeDrops(r: Ring, data: seq<byte>)
    requires RingOk(r) && r.output + |data| <= BUF_LEN && |data| <= Held(r)
    requires forall k :: 0 <= k < |data| ==> data[k] == Contents(r)[k]
    ensures Contents(r) == data + Contents(r.(output := Wrap(r.output + |data|)))
  {
    var r1 := r.(output := Wrap(r.output + |data|));
    assert Held(r1) == Held(r) - |data|;
  }
}
