/** Byte memory, scatter/gather lists and sums: the vocabulary shared by all modules. */
module Memory {
  newtype byte = x: int | 0 <= x < 0x100

  type Bytes = seq<byte>

  datatype Option<+T> = None | Some(value: T)

  /** The concatenation of a message's slices, which is what the peer must receive. */
  function Flat(slices: seq<Bytes>): Bytes {
    if slices == [] then [] else slices[0] + Flat(slices[1..])
  }

  /** The bytes at offsets `off .. off + n`; empty when that range is not inside the memory. */
  function ReadAt(mem: Bytes, off: int, n: nat): Bytes {
    if 0 <= off && off + n <= |mem| then seq(n, k requires 0 <= k < n => mem[off + k]) else []
  }

  /** The memory after `data` is stored at offset `off`; unchanged when it does not fit. */
  function WriteAt(mem: Bytes, off: int, data: Bytes): (r: Bytes)
    ensures |r| == |mem|
  {
    if 0 <= off && off + |data| <= |mem| then
      seq(|mem|, k requires 0 <= k < |mem| => if off <= k < off + |data| then data[k - off] else mem[k])
    else mem
  }

  /** The first n bytes of `data` are stored at offset `off`. */
  ghost predicate Holds(mem: Bytes, off: int, data: Bytes, n: nat) {
    && n <= |data| && 0 <= off && off + n <= |mem|
    && forall k | 0 <= k < n :: mem[off + k] == data[k]
  }

  lemma HoldsRead(mem: Bytes, off: int, data: Bytes)
    requires Holds(mem, off, data, |data|)
    ensures ReadAt(mem, off, |data|) == data
  {
    var read := ReadAt(mem, off, |data|);
    forall k | 0 <= k < |data|
      ensures read[k] == data[k]
    {
    }
  }

  /** Storing the next slice of the message extends what is stored of it. */
  lemma HoldsMore(mem: Bytes, off: int, data: Bytes, n: nat, slice: Bytes)
    requires Holds(mem, off, data, n)
    requires n + |slice| <= |data| && off + n + |slice| <= |mem|
    requires forall j | 0 <= j < |slice| :: slice[j] == data[n + j]
    ensures Holds(WriteAt(mem, off + n, slice), off, data, n + |slice|)
  {
    var w := WriteAt(mem, off + n, slice);
    forall k | 0 <= k < n + |slice|
      ensures w[off + k] == data[k]
    {
      if k < n {
        assert w[off + k] == mem[off + k];
      } else {
        assert w[off + k] == slice[k - n];
      }
    }
  }

  /** Storing elsewhere leaves it as it was. */
  lemma HoldsApart(mem: Bytes, off: int, data: Bytes, n: nat, at: int, slice: Bytes)
    requires Holds(mem, off, data, n)
    requires off + n <= at || at + |slice| <= off
    ensures Holds(WriteAt(mem, at, slice), off, data, n)
  {
  }

  /** Storing one part behind the other stores the whole. */
  lemma WriteTwice(mem: Bytes, off: nat, a: Bytes, b: Bytes)
    requires off + |a| + |b| <= |mem|
    ensures WriteAt(WriteAt(mem, off, a), off + |a|, b) == WriteAt(mem, off, a + b)
  {
    var twice, once := WriteAt(WriteAt(mem, off, a), off + |a|, b), WriteAt(mem, off, a + b);
    forall k | 0 <= k < |mem|
      ensures twice[k] == once[k]
    {
    }
  }

  lemma WriteNothing(mem: Bytes, off: int)
    ensures WriteAt(mem, off, []) == mem
  {
  }

  /** Two half-open address ranges have no address in common. */
  ghost predicate Apart(a: nat, n: nat, b: nat, m: nat) {
    forall p | Covers(a, n, p) :: !Covers(b, m, p)
  }

  predicate Covers(a: nat, n: nat, p: nat) {
    a <= p < a + n
  }

  lemma {:induction false} FlatSnoc(slices: seq<Bytes>, s: Bytes)
    ensures Flat(slices + [s]) == Flat(slices) + s
  {
    if slices == [] {
      assert Flat([s]) == s + Flat([s][1..]) == s;
    } else {
      FlatSnoc(slices[1..], s);
      assert (slices + [s])[1..] == slices[1..] + [s];
    }
  }

  /** The lengths of a sequence of messages. */
  function Lens(msgs: seq<Bytes>): (r: seq<nat>)
    ensures |r| == |msgs|
    ensures forall i | 0 <= i < |msgs| :: r[i] == |msgs[i]|
  {
    seq(|msgs|, i requires 0 <= i < |msgs| => |msgs[i]|)
  }

  lemma LensSnoc(msgs: seq<Bytes>, d: Bytes)
    ensures Lens(msgs + [d]) == Lens(msgs) + [|d|]
  {
  }

  /** The total of `lens[i..j]`. */
  function Sum(lens: seq<nat>, i: nat, j: nat): nat
    requires i <= j <= |lens|
    decreases j
  {
    if i == j then 0 else Sum(lens, i, j - 1) + lens[j - 1]
  }

  lemma {:induction false} SumPrefix(lens: seq<nat>, more: seq<nat>, i: nat, j: nat)
    requires i <= j <= |lens|
    ensures Sum(lens + more, i, j) == Sum(lens, i, j)
    decreases j
  {
    if i < j {
      SumPrefix(lens, more, i, j - 1);
    }
  }

  lemma {:induction false} SumSplit(lens: seq<nat>, i: nat, j: nat, k: nat)
    requires i <= j <= k <= |lens|
    ensures Sum(lens, i, k) == Sum(lens, i, j) + Sum(lens, j, k)
    decreases k
  {
    if j < k {
      SumSplit(lens, i, j, k - 1);
    }
  }
}
