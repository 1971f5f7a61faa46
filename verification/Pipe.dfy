/** One pipe (fs/pipe/pipe.c): a ring buffer of 4096 bytes and the three counts that
    decide when its ends are closed and when it is freed.  Every method is one critical
    section. */
module Pipe {
  import opened MachineInts
  import opened ImageBytes

  const SIZE: nat := 4096

  // ---- Rings --------------------------------------------------------------------------------

  /** A position past the end goes round to the start. */
  function Wrap(x: nat): (w: nat)
    requires x < 2 * SIZE
    ensures w == x % SIZE < SIZE
  {
    if x < SIZE then x else x - SIZE
  }

  /** The `n` bytes from `pos` on, going round the end. */
  function Ring(buf: seq<Byte>, pos: nat, n: nat): (r: seq<Byte>)
    requires |buf| == SIZE && pos < SIZE && n <= SIZE
    ensures |r| == n && forall i | 0 <= i < n :: r[i] == buf[Wrap(pos + i)]
  {
    seq(n, i requires 0 <= i < n => buf[Wrap(pos + i)])
  }

  /** `k` bytes copied out at `pos`: one slice, or two when they go round the end. */
  function Taken(buf: seq<Byte>, pos: nat, k: nat): (r: seq<Byte>)
    requires |buf| == SIZE && pos < SIZE && k <= SIZE
    ensures |r| == k
  {
    if pos + k <= SIZE then buf[pos..pos + k] else buf[pos..] + buf[..pos + k - SIZE]
  }

  lemma RingFront(buf: seq<Byte>, pos: nat, n: nat, k: nat)
    requires |buf| == SIZE && pos < SIZE && k <= n <= SIZE
    ensures Ring(buf, pos, n)[..k] == Taken(buf, pos, k)
  {
  }

  /** What is left of a ring after its first bytes is a ring further on. */
  lemma RingRest(buf: seq<Byte>, pos: nat, n: nat, k: nat)
    requires |buf| == SIZE && pos < SIZE && k <= n <= SIZE
    ensures Ring(buf, pos, n)[k..] == Ring(buf, Wrap(pos + k), n - k)
  {
    var a, b := Ring(buf, pos, n)[k..], Ring(buf, Wrap(pos + k), n - k);
    forall i | 0 <= i < n - k ensures a[i] == b[i] {
      assert Wrap(pos + (k + i)) == Wrap(Wrap(pos + k) + i);
    }
  }

  /** Writing `b` behind a ring, going round the end. */
  function Put(buf: seq<Byte>, pos: nat, b: seq<Byte>): (r: seq<Byte>)
    requires |buf| == SIZE && pos < SIZE && |b| <= SIZE
    ensures |r| == SIZE
  {
    if pos + |b| <= SIZE then Splice(buf, pos, b)
    else Splice(Splice(buf, pos, b[..SIZE - pos]), 0, b[SIZE - pos..])
  }

  lemma PutByte(buf: seq<Byte>, pos: nat, b: seq<Byte>, i: nat)
    requires |buf| == SIZE && pos < SIZE && |b| <= SIZE && i < SIZE
    ensures Put(buf, pos, b)[Wrap(pos + i)] == if i < |b| then b[i] else buf[Wrap(pos + i)]
  {
    var k := Wrap(pos + i);
    if pos + |b| <= SIZE {
      SpliceAt(buf, pos, b, k);
    } else {
      PutRound(buf, pos, b[..SIZE - pos], b[SIZE - pos..], i, k);
    }
  }

  /** A write that goes round the end, in its two parts. */
  lemma PutRound(buf: seq<Byte>, pos: nat, front: seq<Byte>, back: seq<Byte>, i: nat, k: nat)
    requires |buf| == SIZE && pos + |front| == SIZE && |front| + |back| <= SIZE && i < SIZE
    requires k == if pos + i < SIZE then pos + i else pos + i - SIZE
    ensures Splice(Splice(buf, pos, front), 0, back)[k]
            == if i < |front| then front[i] else if i < |front| + |back| then back[i - |front|] else buf[k]
  {
    SpliceAt(buf, pos, front, k);
    SpliceAt(Splice(buf, pos, front), 0, back, k);
  }

  lemma RingBack(buf: seq<Byte>, pos: nat, n: nat, b: seq<Byte>)
    requires |buf| == SIZE && pos < SIZE && n + |b| <= SIZE
    ensures Ring(Put(buf, Wrap(pos + n), b), pos, n + |b|) == Ring(buf, pos, n) + b
  {
    var w := Wrap(pos + n);
    var after := Put(buf, w, b);
    forall i | 0 <= i < n + |b| ensures after[Wrap(pos + i)] == (Ring(buf, pos, n) + b)[i] {
      var j := if i >= n then i - n else i + SIZE - n;
      assert Wrap(pos + i) == Wrap(w + j);
      PutByte(buf, w, b, j);
    }
  }

  /** What writing at the write position does to the ring and to that position. */
  lemma WriteBehind(buf: seq<Byte>, pos: nat, n: nat, w: nat, b: seq<Byte>, after: seq<Byte>)
    requires |buf| == SIZE && pos < SIZE && n + |b| <= SIZE && w == (pos + n) % SIZE && after == Put(buf, w, b)
    ensures Ring(after, pos, n + |b|) == Ring(buf, pos, n) + b
    ensures (w + |b|) % SIZE == (pos + (n + |b|)) % SIZE
  {
    assert w == Wrap(pos + n);
    RingBack(buf, pos, n, b);
  }

  method CopyRound(buf: array<Byte>, pos: nat, b: seq<Byte>)
    requires buf.Length == SIZE && pos < SIZE && |b| <= SIZE
    modifies buf
    ensures buf[..] == Put(old(buf[..]), pos, b)
  {
    var toEnd := SIZE - pos;
    if |b| <= toEnd {
      CopyInto(buf, pos, b);
    } else {
      CopyInto(buf, pos, b[..toEnd]);
      CopyInto(buf, 0, b[toEnd..]);
    }
  }

  function Min(a: nat, b: nat): nat {
    if a < b then a else b
  }

  // ---- The object ------------------------------------------------------------------------------

  /** `readNode` and `writeNode` are the reference counts of the nodes over the pipe, 0
      for a node that has been freed; a named pipe has the read node only. */
  class Pipe {
    const buf: array<Byte>
    const named: bool
    var readPos: nat
    var writePos: nat
    var len: nat
    var readOpen: nat
    var writeOpen: nat
    var refCount: nat
    var alive: bool
    var readNode: nat
    var writeNode: nat

    ghost predicate BufferOk()
      reads this
    {
      buf.Length == SIZE && readPos < SIZE && len <= SIZE && writePos == (readPos + len) % SIZE
    }

    /** The counts agree with the nodes, and the pipe lives as long as a node does. */
    ghost predicate CountsOk()
      reads this
    {
      && refCount == readNode + writeNode
      && (alive <==> readNode > 0 || writeNode > 0)
      && (named ==> writeNode == 0 && readOpen == writeOpen == if readNode > 0 then readNode - 1 else 0)
      && (!named ==> readOpen == readNode && writeOpen == writeNode)
    }

    ghost predicate Valid()
      reads this
    {
      BufferOk() && CountsOk()
    }

    ghost function Contents(): seq<Byte>
      reads this, buf
      requires BufferOk()
    {
      Ring(buf[..], readPos, len)
    }

    /** `pipe_create`, or `fifo_create` for a named pipe. */
    constructor (named: bool)
      ensures Valid() && fresh(buf) && Contents() == [] && this.named == named && alive
      ensures readNode == 1 && writeNode == if named then 0 else 1
    {
      buf := new Byte[SIZE](_ => 0);
      this.named := named;
      readPos, writePos, len := 0, 0, 0;
      alive := true;
      readNode, writeNode := 1, if named then 0 else 1;
      refCount := if named then 1 else 2;
      readOpen, writeOpen := if named then 0 else 1, if named then 0 else 1;
    }

    /** One round of `pipe_read` on a pipe with data. */
    method ReadChunk(want: nat) returns (out: seq<Byte>)
      requires Valid() && alive && len > 0
      modifies `readPos, `len
      ensures Valid() && out == old(Contents())[..Min(want, old(len))] && Contents() == old(Contents())[Min(want, old(len))..]
      ensures out == Taken(buf[..], old(readPos), |out|) && readPos == (old(readPos) + |out|) % SIZE && len == old(len) - |out|
    {
      var chunk := if want < len then want else len;
      var toEnd := SIZE - readPos;
      RingFront(buf[..], readPos, len, chunk);
      RingRest(buf[..], readPos, len, chunk);
      if chunk <= toEnd {
        out := buf[readPos..readPos + chunk];
      } else {
        out := buf[readPos..] + buf[..chunk - toEnd];
      }
      readPos := (readPos + chunk) % SIZE;
      len := len - chunk;
    }

    /** One round of `pipe_write` on a pipe with space. */
    method WriteChunk(data: seq<Byte>) returns (chunk: nat)
      requires Valid() && alive && len < SIZE
      modifies `writePos, `len, buf
      ensures Valid() && chunk == Min(|data|, SIZE - old(len)) && Contents() == old(Contents()) + data[..chunk]
      ensures buf[..] == Put(old(buf[..]), old(writePos), data[..chunk])
      ensures writePos == (old(writePos) + chunk) % SIZE && len == old(len) + chunk
    {
      var space := SIZE - len;
      chunk := if |data| < space then |data| else space;
      ghost var before := buf[..];
      CopyRound(buf, writePos, data[..chunk]);
      WriteBehind(before, readPos, len, writePos, data[..chunk], buf[..]);
      writePos := (writePos + chunk) % SIZE;
      len := len + chunk;
    }

    /** `_vfs_pipe_open` on a live node. */
    method Open(write: bool)
      requires Valid() && if write then writeNode > 0 else readNode > 0
      modifies `readNode, `writeNode, `refCount, `readOpen, `writeOpen
      ensures Valid()
      ensures readNode == old(readNode) + (if write then 0 else 1) && writeNode == old(writeNode) + (if write then 1 else 0)
    {
      if write {
        writeNode := writeNode + 1;
      } else {
        readNode := readNode + 1;
      }
      refCount := refCount + 1;
      if named {
        readOpen, writeOpen := readOpen + 1, writeOpen + 1;
      } else if write {
        writeOpen := writeOpen + 1;
      } else {
        readOpen := readOpen + 1;
      }
    }

    /** `_vfs_pipe_close` on a live node: the pipe is freed exactly when its last node is. */
    method Close(write: bool) returns (freed: bool)
      requires Valid() && if write then writeNode > 0 else readNode > 0
      modifies `readNode, `writeNode, `refCount, `readOpen, `writeOpen, `alive
      ensures Valid()
      ensures readNode == old(readNode) - (if write then 0 else 1) && writeNode == old(writeNode) - (if write then 1 else 0)
      ensures freed <==> readNode == 0 && writeNode == 0
    {
      if named {
        readOpen := if readOpen > 0 then readOpen - 1 else 0;
        writeOpen := if writeOpen > 0 then writeOpen - 1 else 0;
      } else if write {
        if writeOpen > 0 {
          writeOpen := writeOpen - 1;
        }
      } else if readOpen > 0 {
        readOpen := readOpen - 1;
      }
      refCount := refCount - 1;
      freed := refCount == 0;
      if freed {
        alive := false;
      }
      if write {
        writeNode := if writeNode <= 1 then 0 else writeNode - 1;
      } else {
        readNode := if readNode <= 1 then 0 else readNode - 1;
      }
    }
  }
}
