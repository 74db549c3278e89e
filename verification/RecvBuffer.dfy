/** The receive buffer of a connection, as the receiver task uses it. */
module RecvBuffers {
  import opened Memory
  import opened Machine
  import opened Rings
  import opened Notices

  class RecvBuffer {
    const mem: array<byte>
    const left: u64
    const right: u64
    var released: u32
    var done: u64
    var index: u64

    ghost function R(): Ring {
      Ring(left as nat, right as nat)
    }

    ghost function T(): Tail
      reads this
    {
      Tail(done as nat, released as nat)
    }

    ghost predicate Valid()
      reads this
    {
      && Region(left, right) && mem.Length == right as nat - left as nat
      && left <= index <= right
      && left <= done && done as nat + released as nat <= right as nat
    }

    constructor (mem: array<byte>, addr: u64)
      requires mem.Length < 0x1_0000_0000 && addr as int + mem.Length + 0x1_0000_0000 <= 0x1_0000_0000_0000_0000
      ensures Valid() && this.mem == mem && left == addr
      ensures T() == Tail(left as nat, 0) && index == left
    {
      this.mem := mem;
      left, right := addr, addr + mem.Length as u64;
      released, done, index := 0, addr, addr;
    }

    /**
       The next message, found from its length alone. A length that does not fit the buffer
       makes the slice panic.
     */
    method Read(length: u32) returns (buf: Bytes)
      requires Valid() && length as nat <= mem.Length
      modifies this`index
      ensures Valid() && index as nat == R().Step(old(index) as nat, length as nat)
      ensures buf == ReadAt(mem[..], R().Start(old(index) as nat, length as nat) - left as nat, length as nat)
      ensures |buf| == length as nat
    {
      var start := index;
      var end := start + length as u64;
      if end > right {
        start := left;
        end := left + length as u64;
      }
      index := end;
      buf := mem[start - left..end - left];
    }

    /** One message is released; the returned notice, if any, is to be sent to the peer. */
    method NotifyRelease(length: u32) returns (notice: Option<u32>)
      requires Valid() && length as nat <= mem.Length
      modifies this`released, this`done
      ensures Valid()
      ensures var (t, n) := Notices.NotifyRelease(R(), MIN_LENGTH_TO_NOTIFY_RELEASE as nat, old(T()), length as nat);
              T() == t && n == (match notice case Some(x) => Some(x as nat) case None => None)
    {
      if done + released as u64 + length as u64 > right {
        var ret := released;
        released := length;
        done := left;
        return Some(ret);
      } else if released + length >= MIN_LENGTH_TO_NOTIFY_RELEASE {
        var ret := released + length;
        done := done + ret as u64;
        released := 0;
        return Some(ret);
      } else {
        released := released + length;
        return None;
      }
    }
  }
}
