/** `dist.all_to_all_single` with equal splits, by its data movement. */
module AllToAll {
  import opened Arith

  predicate EqualSplit<T>(send: seq<seq<T>>, size: nat) {
    forall r :: 0 <= r < |send| ==> |send[r]| == |send| * size
  }

  /** Block `q` of what rank `r` receives is block `r` of what rank `q` sent. */
  function Exchange<T>(send: seq<seq<T>>, size: nat): (recv: seq<seq<T>>)
    requires EqualSplit(send, size)
    ensures |recv| == |send|
    ensures EqualSplit(recv, size)
  {
    seq(|send|, r requires 0 <= r < |send| => Received(send, size, r))
  }

  function Received<T>(send: seq<seq<T>>, size: nat, r: nat): (recv: seq<T>)
    requires EqualSplit(send, size) && r < |send|
    ensures |recv| == |send| * size
  {
    seq(|send| * size, j requires 0 <= j < |send| * size =>
      BlockIndex(|send|, size, j);
      InBlock(|send|, size, r, j % size);
      send[j / size][r * size + j % size])
  }

  /** Where an element comes from, and that the place it came from points back. */
  lemma ReceivedAt<T>(send: seq<seq<T>>, size: nat, r: nat, j: nat)
    requires EqualSplit(send, size) && r < |send| && j < |send| * size
    ensures size > 0 && j / size < |send| && r * size + j % size < |send| * size
    ensures Exchange(send, size)[r][j] == send[j / size][r * size + j % size]
    ensures (r * size + j % size) / size == r
    ensures (j / size) * size + (r * size + j % size) % size == j
  {
    BlockIndex(|send|, size, j);
    InBlock(|send|, size, r, j % size);
  }

  /** The combine exchange undoes the dispatch exchange. */
  lemma ExchangeIsInvolution<T>(send: seq<seq<T>>, size: nat)
    requires EqualSplit(send, size)
    ensures Exchange(Exchange(send, size), size) == send
  {
    var recv := Exchange(send, size);
    var back := Exchange(recv, size);
    forall r | 0 <= r < |send| ensures back[r] == send[r] {
      forall j | 0 <= j < |send| * size ensures back[r][j] == send[r][j] {
        ReceivedAt(recv, size, r, j);
        ReceivedAt(send, size, j / size, r * size + j % size);
      }
    }
  }

  /** A group of one rank only copies, which is what the code does then. */
  lemma AloneIsCopy<T>(send: seq<seq<T>>, size: nat)
    requires EqualSplit(send, size) && |send| == 1
    ensures Exchange(send, size) == send
  {
    forall j | 0 <= j < size ensures Exchange(send, size)[0][j] == send[0][j] {
      ReceivedAt(send, size, 0, j);
    }
    assert Exchange(send, size)[0] == send[0];
  }
}
