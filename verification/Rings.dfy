/** The UART rings: one producer, one consumer, and the other side free to move at every
    step of either.  `put` and `taken` are the bytes ever published and ever consumed. */
module Rings {
  import opened Bytes

  /** Where position i of the stream sits in the ring. */
  function Cell(i: nat, size: nat): (c: nat)
    requires size > 0
    ensures c < size
  {
    if i < size then i else Cell(i - size, size)
  }

  /** A masked sum of two numbers below the size. */
  lemma Wrapped(x: nat, size: nat)
    requires size > 0 && x < 2 * size
    ensures x % size == if x < size then x else x - size
  {
    var q, m := x / size, x % size;
    assert x == size * q + m;
    if q >= 2 { MulMono(q, 2, size); }
    if q == 1 { assert size * q == size; }
  }

  lemma {:induction false} NextCell(i: nat, size: nat)
    requires size > 0
    ensures Cell(i + 1, size) == (Cell(i, size) + 1) % size
    decreases i
  {
    if i < size { Wrapped(i + 1, size); } else { NextCell(i - size, size); }
  }

  /** Two positions less than a ring apart share a cell only if they are the same. */
  lemma {:induction false} Apart(i: nat, j: nat, size: nat)
    requires size > 0 && i <= j
    ensures j - i < size && Cell(i, size) == Cell(j, size) ==> i == j
    ensures j - i == size ==> Cell(i, size) == Cell(j, size)
    decreases i
  {
    if i >= size {
      Apart(i - size, j - size, size);
    } else if j >= size && j - i <= size {
      assert Cell(j - size, size) == j - size || j - size == size;
    }
  }

  lemma {:induction false} UsedIs(r: nat, w: nat, size: nat)
    requires size > 0 && r <= w && w - r < size
    ensures (Cell(w, size) + size - Cell(r, size)) % size == w - r
    decreases r
  {
    if r < size {
      Wrapped(Cell(w, size) + size - r, size);
    } else {
      UsedIs(r - size, w - size, size);
    }
  }

  /** Positions from `from` on are where the ring says they are. */
  predicate Keeps(cells: seq<Byte>, from: nat, bytes: seq<Byte>) {
    |cells| > 0 && forall i :: from <= i < |bytes| ==> cells[Cell(i, |cells|)] == bytes[i]
  }

  lemma KeepsLess(cells: seq<Byte>, from: nat, to: nat, bytes: seq<Byte>)
    requires Keeps(cells, from, bytes) && from <= to
    ensures Keeps(cells, to, bytes)
  {
  }

  lemma KeptAt(cells: seq<Byte>, from: nat, bytes: seq<Byte>, i: nat)
    requires Keeps(cells, from, bytes) && from <= i < |bytes|
    ensures cells[Cell(i, |cells|)] == bytes[i]
  {
  }

  lemma StoreKeeps(cells: seq<Byte>, from: nat, bytes: seq<Byte>, b: Byte)
    requires Keeps(cells, from, bytes) && from <= |bytes| && |bytes| - from < |cells|
    ensures Keeps(cells[Cell(|bytes|, |cells|) := b], from, bytes + [b])
  {
    forall i | from <= i < |bytes| ensures Cell(i, |cells|) != Cell(|bytes|, |cells|) {
      Apart(i, |bytes|, |cells|);
    }
  }

  /** What the interrupt decided about one byte of the FIFO. */
  datatype Verdict = Verdict(byte: Byte, kept: bool)

  function Kept(vs: seq<Verdict>): seq<Byte> {
    if vs == [] then []
    else Kept(vs[..|vs| - 1]) + if vs[|vs| - 1].kept then [vs[|vs| - 1].byte] else []
  }

  function Dropped(vs: seq<Verdict>): nat {
    if vs == [] then 0 else Dropped(vs[..|vs| - 1]) + if vs[|vs| - 1].kept then 0 else 1
  }

  /** How far a reader at `taken` has got when it consumes moves[0], moves[1], ... up to
      moves[k - 1] bytes, or what there is of them. */
  function ReaderAt(taken: nat, published: nat, moves: seq<nat>, k: nat): (t: nat)
    requires taken <= published
    ensures taken <= t <= published
  {
    if k == 0 then taken
    else
      var t := ReaderAt(taken, published, moves, k - 1);
      var n := if k <= |moves| then moves[k - 1] else 0;
      if t + n <= published then t + n else published
  }

  class Ring {
    const cells: array<Byte>
    var head: nat
    var tail: nat
    var drops: nat
    ghost var put: seq<Byte>
    ghost var taken: seq<Byte>

    ghost predicate Valid()
      reads this, cells
    {
      var size := cells.Length;
      && size > 1 && |taken| <= |put| && |put| - |taken| < size
      && taken == put[..|taken|]
      && head == Cell(|put|, size) && tail == Cell(|taken|, size)
      && Keeps(cells[..], |taken|, put)
    }

    constructor (size: nat)
      requires size > 1
      ensures Valid() && cells.Length == size && put == [] && taken == []
    {
      cells := new Byte[size](_ => 0);
      head, tail, drops, put, taken := 0, 0, 0, [], [];
    }

    // ---- the other side ----

    /** The producer publishes something, if there is room for it. */
    method ProducerMoves()
      requires Valid()
      modifies `head, `put, cells
      ensures Valid() && old(put) <= put
    {
      hide Keeps, Cell;
      var n: nat :| 0 <= n;
      for k := 0 to n
        invariant Valid() && old(put) <= put
      {
        var used := Used();
        if used < cells.Length - 1 {
          var b: Byte := *;
          StoreKeeps(cells[..], |taken|, put, b);
          NextCell(|put|, cells.Length);
          cells[head] := b;
          head := (head + 1) % cells.Length;
          put := put + [b];
        }
      }
    }

    /** The consumer consumes some of what is published. */
    method ConsumerMoves()
      requires Valid()
      modifies `tail, `taken
      ensures Valid() && old(|taken|) <= |taken|
    {
      hide Cell;
      var n: nat :| 0 <= n;
      for k := 0 to n
        invariant Valid() && old(|taken|) <= |taken|
      {
        Apart(|taken|, |put|, cells.Length);
        if head != tail {
          NextCell(|taken|, cells.Length);
          tail := (tail + 1) % cells.Length;
          taken := taken + [put[|taken|]];
        }
      }
    }

    /** (head - tail) masked, as rtl_tx_space has it. */
    method Used() returns (n: nat)
      requires Valid()
      ensures n == |put| - |taken|
    {
      hide Keeps;
      var size := cells.Length;
      UsedIs(|taken|, |put|, size);
      n := (head + size - tail) % size;
    }

    // ---- the consumer ----

    /** rtl8720_uart_read: snapshot head, copy, publish tail once.  What comes out is what
        was put in, in order, once, and everything that was there if there was room. */
    method Read(n: nat) returns (buf: seq<Byte>)
      requires Valid()
      modifies this, cells
      ensures Valid() && old(put) <= put && drops == old(drops)
      ensures taken == old(taken) + buf && |buf| <= n
      ensures |buf| < n ==> |taken| >= |old(put)|
    {
      hide Cell, Keeps;
      buf := [];
      ghost var seen := put;
      var h, t := head, tail;
      while |buf| < n && t != h
        invariant Valid() && old(put) <= seen <= put && drops == old(drops)
        invariant taken == old(taken) && taken + buf <= seen && |buf| <= n
        invariant t == Cell(|taken + buf|, cells.Length) && h == Cell(|seen|, cells.Length)
        decreases n - |buf|
      {
        OneMore(cells[..], |taken|, taken + buf, seen, put);
        NextCell(|taken + buf|, cells.Length);
        assert taken + (buf + [cells[t]]) == taken + buf + [cells[t]];
        buf := buf + [cells[t]];
        t := (t + 1) % cells.Length;
        ProducerMoves();
      }
      Apart(|taken + buf|, |seen|, cells.Length);
      KeepsLess(cells[..], |taken|, |taken + buf|, put);
      tail := t;
      taken := taken + buf;
    }

    // ---- the producer ----

    /** The receive interrupt, with the reader consuming moves[k] bytes before byte k is
        decided.  Each FIFO byte is kept exactly when the reader's position at that moment,
        looked at again if an older look shows no room, leaves room for it. */
    method Drain(fifo: seq<Byte>, moves: seq<nat>) returns (ghost vs: seq<Verdict>)
      requires Valid()
      modifies this, cells
      ensures Valid() && put == old(put) + Kept(vs) && drops == old(drops) + Dropped(vs)
      ensures |vs| == |fifo| && forall k :: 0 <= k < |vs| ==> vs[k].byte == fifo[k]
      ensures forall k :: 0 <= k < |vs| ==>
        (vs[k].kept <==> |old(put) + Kept(vs[..k])|
                         - ReaderAt(|old(taken)|, |old(put)|, moves, k + 1) < cells.Length - 1)
      ensures |taken| == ReaderAt(|old(taken)|, |old(put)|, moves, |fifo|)
    {
      hide Cell, Keeps, Kept, Dropped, ReaderAt;
      vs := [];
      var size := cells.Length;
      ghost var all := put;
      ghost var t: nat := |taken|;
      var h: nat, snapshot: nat := head, tail;
      NoVerdicts();
      ReaderStays(|taken|, |put|, moves);
      for k := 0 to |fifo|
        invariant cells.Length == size && |taken| <= |put| && taken == put[..|taken|]
        invariant head == Cell(|put|, size) && tail == Cell(|taken|, size) && put == old(put)
        invariant all == put + Kept(vs) && h == Cell(|all|, size) && Keeps(cells[..], |taken|, all)
        invariant t <= |taken| && |all| - t < size && snapshot == Cell(t, size)
        invariant drops == old(drops) + Dropped(vs)
        invariant |taken| == ReaderAt(|old(taken)|, |old(put)|, moves, k)
        invariant |vs| == k && forall j :: 0 <= j < k ==> vs[j].byte == fifo[j]
        invariant forall j :: 0 <= j < k ==>
          (vs[j].kept <==> |old(put) + Kept(vs[..j])|
                           - ReaderAt(|old(taken)|, |old(put)|, moves, j + 1) < size - 1)
      {
        ReaderMoves(all, if k < |moves| then moves[k] else 0);
        ReaderGoes(|old(taken)|, |old(put)|, moves, k);
        NextCell(|all|, size);
        Apart(t, |all| + 1, size);
        var next := (h + 1) % size;
        var full := next == snapshot;
        if full {
          t := |taken|;
          snapshot := tail;
          Apart(t, |all| + 1, size);
          full := next == snapshot;
        }
        ghost var before := vs;
        VerdictAdded(before, Verdict(fifo[k], !full));
        vs := vs + [Verdict(fifo[k], !full)];
        assert forall j :: 0 <= j <= k ==> vs[..j] == before[..j];
        assert before[..k] == before;
        if full {
          drops := drops + 1;
        } else {
          StoreKeeps(cells[..], |taken|, all, fifo[k]);
          cells[h] := fifo[k];
          all := all + [fifo[k]];
          h := next;
        }
      }
      head := h;
      put := all;
    }

    /** Between two bytes of the interrupt the reader may publish a tail of its own, `n`
        bytes on or as many as are published. */
    method ReaderMoves(ghost all: seq<Byte>, n: nat)
      requires cells.Length > 1 && |taken| <= |put| <= |all| && taken == put[..|taken|]
      requires head == Cell(|put|, cells.Length) && tail == Cell(|taken|, cells.Length)
      requires Keeps(cells[..], |taken|, all) && |all| - |taken| < cells.Length
      modifies `tail, `taken
      ensures |taken| == if |old(taken)| + n <= |put| then |old(taken)| + n else |put|
      ensures old(|taken|) <= |taken| && taken == put[..|taken|]
      ensures tail == Cell(|taken|, cells.Length) && Keeps(cells[..], |taken|, all)
    {
      hide Cell;
      for k := 0 to n
        invariant |taken| == if |old(taken)| + k <= |put| then |old(taken)| + k else |put|
        invariant taken == put[..|taken|]
        invariant tail == Cell(|taken|, cells.Length) && Keeps(cells[..], |taken|, all)
      {
        Apart(|taken|, |put|, cells.Length);
        if head != tail {
          NextCell(|taken|, cells.Length);
          tail := (tail + 1) % cells.Length;
          taken := taken + [put[|taken|]];
        }
      }
    }

    /** rtl8720_uart_write: as much as there is room for, waiting for more room as long as
        patience lasts.  What is accepted is a prefix, whole and in order; `full` looks found
        no room, one more than there was patience for if it gave up. */
    method Write(buf: seq<Byte>, patience: nat) returns (done: nat, ghost full: nat)
      requires Valid()
      modifies this, cells
      ensures Valid() && done <= |buf| && put == old(put) + buf[..done]
      ensures done < |buf| ==> |put| - |taken| == cells.Length - 1
      ensures full <= patience + 1 && (done < |buf| <==> full == patience + 1)
      ensures old(|taken|) <= |taken|
    {
      hide Keeps, Cell;
      done, full := 0, 0;
      var left := patience;
      while done < |buf|
        invariant Valid() && done <= |buf| && put == old(put) + buf[..done]
        invariant old(|taken|) <= |taken| && full == patience - left
        decreases |buf| - done, left
      {
        ConsumerMoves();
        var used := Used();
        var space := cells.Length - 1 - used;
        if space == 0 {
          full := full + 1;
          if left == 0 { return; }
          left := left - 1;
          continue;
        }
        space := if space > |buf| - done then |buf| - done else space;
        Fill(buf[done..done + space]);
        assert buf[..done + space] == buf[..done] + buf[done..done + space];
        done := done + space;
      }
    }

    /** Copy a piece that fits, the interrupt consuming meanwhile, then publish head. */
    method Fill(piece: seq<Byte>)
      requires Valid() && |put| - |taken| + |piece| < cells.Length
      modifies this, cells
      ensures Valid() && put == old(put) + piece && old(|taken|) <= |taken|
    {
      hide Keeps, Cell;
      var size := cells.Length;
      ghost var all := put;
      var h := head;
      for i := 0 to |piece|
        invariant cells.Length == size && |taken| <= |put| && taken == put[..|taken|]
        invariant head == Cell(|put|, size) && tail == Cell(|taken|, size) && put == old(put)
        invariant all == put + piece[..i] && h == Cell(|all|, size)
        invariant Keeps(cells[..], |taken|, all) && old(|taken|) <= |taken|
      {
        var n: nat := *;
        ReaderMoves(all, n);
        StoreKeeps(cells[..], |taken|, all, piece[i]);
        NextCell(|all|, size);
        cells[h] := piece[i];
        h := (h + 1) % size;
        all := all + [piece[i]];
      }
      assert piece[..|piece|] == piece;
      head := h;
      put := all;
    }

    /** The transmit half of the interrupt: at most `room` bytes into the data register. */
    method Refill(room: nat) returns (tdr: seq<Byte>, dry: bool)
      requires Valid()
      modifies this, cells
      ensures Valid() && old(put) <= put && taken == old(taken) + tdr && |tdr| <= room
      ensures |old(taken)| + |tdr| <= |old(put)|
      ensures taken <= old(put)
      ensures dry <==> |old(taken)| + |tdr| == |old(put)|
      ensures !dry ==> |tdr| == room
    {
      hide Cell, Keeps;
      tdr := [];
      ghost var seen := put;
      var t, h := tail, head;
      while t != h && |tdr| < room
        invariant Valid() && seen == old(put) <= put && |tdr| <= room
        invariant taken == old(taken) && taken + tdr <= seen
        invariant t == Cell(|taken + tdr|, cells.Length) && h == Cell(|seen|, cells.Length)
        decreases room - |tdr|
      {
        OneMore(cells[..], |taken|, taken + tdr, seen, put);
        NextCell(|taken + tdr|, cells.Length);
        assert taken + (tdr + [cells[t]]) == taken + tdr + [cells[t]];
        tdr := tdr + [cells[t]];
        t := (t + 1) % cells.Length;
        ProducerMoves();
      }
      Apart(|taken + tdr|, |seen|, cells.Length);
      KeepsLess(cells[..], |taken|, |taken + tdr|, put);
      tail := t;
      taken := taken + tdr;
      dry := t == h;
    }
  }

  lemma NoVerdicts()
    ensures Kept([]) == [] && Dropped([]) == 0
  {
  }

  lemma VerdictAdded(vs: seq<Verdict>, v: Verdict)
    ensures Kept(vs + [v]) == Kept(vs) + if v.kept then [v.byte] else []
    ensures Dropped(vs + [v]) == Dropped(vs) + if v.kept then 0 else 1
  {
    assert (vs + [v])[..|vs|] == vs;
  }

  lemma ReaderStays(taken: nat, published: nat, moves: seq<nat>)
    requires taken <= published
    ensures ReaderAt(taken, published, moves, 0) == taken
  {
  }

  lemma ReaderGoes(taken: nat, published: nat, moves: seq<nat>, k: nat)
    requires taken <= published
    ensures var t := ReaderAt(taken, published, moves, k);
      var n := if k < |moves| then moves[k] else 0;
      ReaderAt(taken, published, moves, k + 1) == if t + n <= published then t + n else published
  {
  }

  /** The next byte for the consumer is the next byte of the stream. */
  lemma OneMore(cells: seq<Byte>, from: nat, got: seq<Byte>, seen: seq<Byte>, put: seq<Byte>)
    requires Keeps(cells, from, put) && from <= |got| && got <= seen <= put
    requires |put| - from < |cells| && Cell(|got|, |cells|) != Cell(|seen|, |cells|)
    ensures |got| < |seen| && got + [cells[Cell(|got|, |cells|)]] <= seen
  {
    hide Cell, Keeps;
    if |got| < |seen| { KeptAt(cells, from, put, |got|); }
  }
}
