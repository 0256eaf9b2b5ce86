/** What several parts share: the parameters of the kernel (crates/param) and a few small notions. */
module Common {

  const MAXOPBLOCKS := 10   // log writes an operation may make
  const LOGSIZE := 30       // blocks a transaction may have
  const NBUF := 30          // buffers in the cache

  datatype Option<T> = None | Some(value: T)

  function Min(a: nat, b: nat): nat {
    if a < b then a else b
  }

  ghost predicate NoRepeats(s: seq<nat>) {
    forall i, j | 0 <= i < j < |s| :: s[i] != s[j]
  }
}
