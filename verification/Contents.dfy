/** Files as byte sequences: what reading and writing at block granularity amounts to. */
module Contents {
  import opened Blocks

  type File = map<nat, Block>

  const MAXBYTES := 71680   // MAXFILE * BSIZE

  /** Exactly the blocks below `extent` bytes are mapped: no holes, and nothing beyond the end. */
  ghost predicate DenseTo(F: File, extent: nat) {
    extent <= MAXBYTES && forall bn: nat :: bn in F <==> bn * BSIZE < extent
  }

  function ByteAt(F: File, k: nat): Byte
    requires k / BSIZE in F
  {
    F[k / BSIZE][k % BSIZE]
  }

  ghost function Bytes(F: File, size: nat): (s: seq<Byte>)
    requires DenseTo(F, size)
    ensures |s| == size
  {
    seq(size, k requires 0 <= k < size => ByteAt(F, k))
  }

  /** `src` written over `s` from position `off`. */
  function Splice(s: seq<Byte>, off: nat, src: seq<Byte>): seq<Byte>
    requires off <= |s|
  {
    s[..off] + src + (if off + |src| < |s| then s[off + |src|..] else [])
  }

  function Max(a: nat, b: nat): nat {
    if a < b then b else a
  }

  /** Bytes off..cur of F are those of `src`; the rest up to `size` are those of F0. */
  ghost predicate Half(F: File, F0: File, size: nat, off: nat, cur: nat, src: seq<Byte>) {
    && off <= size && off <= cur <= off + |src| && DenseTo(F0, size) && DenseTo(F, Max(size, cur))
    && (forall k {:trigger HalfAt(F, F0, off, cur, src, k)} | 0 <= k < Max(size, cur) ::
          HalfAt(F, F0, off, cur, src, k))
  }

  ghost predicate HalfAt(F: File, F0: File, off: nat, cur: nat, src: seq<Byte>, k: nat) {
    && k / BSIZE in F
    && if off <= k < cur then k - off < |src| && ByteAt(F, k) == src[k - off]
       else k / BSIZE in F0 && ByteAt(F, k) == ByteAt(F0, k)
  }

  /** A block with `chunk` written from byte `start`. */
  function Patch(b: Block, start: nat, chunk: seq<Byte>): Block
    requires start + |chunk| <= BSIZE
  {
    b[..start] + chunk + b[start + |chunk|..]
  }

  /** One turn of writei()'s loop. */
  ghost function Turned(F: File, bn: nat, start: nat, chunk: seq<Byte>): File
    requires start + |chunk| <= BSIZE
  {
    F[bn := Patch(if bn in F then F[bn] else ZEROS, start, chunk)]
  }

  lemma HalfStep(F: File, F0: File, size: nat, off: nat, cur: nat, src: seq<Byte>, m: nat)
    requires Half(F, F0, size, off, cur, src) && 0 < m && cur + m <= off + |src| && cur + m <= MAXBYTES
    requires cur % BSIZE + m <= BSIZE
    ensures Half(Turned(F, cur / BSIZE, cur % BSIZE, src[cur - off..cur - off + m]), F0, size, off, cur + m, src)
  {
    var bn, start := cur / BSIZE, cur % BSIZE;
    var chunk := src[cur - off..cur - off + m];
    var G := Turned(F, bn, start, chunk);
    TurnedDense(F, size, cur, m, chunk);
    var end := cur + m;
    forall k | 0 <= k < Max(size, end) ensures HalfAt(G, F0, off, end, src, k) {
      if k / BSIZE == bn && start <= k % BSIZE < start + m {
        assert G[bn][k % BSIZE] == chunk[k % BSIZE - start];
      } else {
        assert HalfAt(F, F0, off, cur, src, k);
        assert k / BSIZE == bn ==> G[bn][k % BSIZE] == F[bn][k % BSIZE];
      }
    }
  }

  lemma TurnedDense(F: File, size: nat, cur: nat, m: nat, chunk: seq<Byte>)
    requires DenseTo(F, Max(size, cur)) && 0 < m && cur + m <= MAXBYTES && cur % BSIZE + m <= BSIZE && |chunk| == m
    ensures DenseTo(Turned(F, cur / BSIZE, cur % BSIZE, chunk), Max(size, cur + m))
  {
    var bn := cur / BSIZE;
    forall b: nat ensures (b * BSIZE < Max(size, cur + m)) <==> b == bn || b * BSIZE < Max(size, cur) {}
  }

  /** When the loop is done, the file is the old one with `src` spliced in. */
  lemma HalfDone(F: File, F0: File, size: nat, off: nat, src: seq<Byte>)
    requires Half(F, F0, size, off, off + |src|, src)
    ensures Bytes(F, Max(size, off + |src|)) == Splice(Bytes(F0, size), off, src)
  {
    var s := Splice(Bytes(F0, size), off, src);
    forall k | 0 <= k < |s| ensures Bytes(F, Max(size, off + |src|))[k] == s[k] {
      assert HalfAt(F, F0, off, off + |src|, src, k);
    }
  }

  lemma HalfStart(F: File, size: nat, off: nat, src: seq<Byte>)
    requires DenseTo(F, size) && off <= size
    ensures Half(F, F, size, off, off, src)
  {
    forall k | 0 <= k < size ensures HalfAt(F, F, off, off, src, k) {}
  }

  /** Reading: the next piece of a block is the next piece of the file. */
  lemma ReadPiece(F: File, size: nat, off: nat, tot: nat, m: nat)
    requires DenseTo(F, size) && off + tot + m <= size && 0 < m && (off + tot) % BSIZE + m <= BSIZE
    ensures (off + tot) / BSIZE in F
    ensures var start := (off + tot) % BSIZE;
            Bytes(F, size)[off..off + tot] + F[(off + tot) / BSIZE][start..start + m]
            == Bytes(F, size)[off..off + tot + m]
  {
    var cur := off + tot;
    var start := cur % BSIZE;
    var piece := F[cur / BSIZE][start..start + m];
    forall j | 0 <= j < m ensures piece[j] == Bytes(F, size)[cur + j] {
      assert (cur + j) / BSIZE == cur / BSIZE && (cur + j) % BSIZE == start + j;
    }
  }
}
