// What several parts of the kernel share.
module Kernel {

  datatype Option<T> = None | Some(value: T)

  const UINT: nat := 0x1_0000_0000

  const MAXOPBLOCKS: nat := 10               // most blocks any operation logs
  const LOGSIZE: nat := MAXOPBLOCKS * 3      // most blocks in the log

  // What one transaction of filewrite hands to log_write: `early` first, and after that at most one
  // more block, the inode's.
  ghost predicate Transaction(early: set<nat>, logged: set<nat>, inode: nat) {
    |early| < MAXOPBLOCKS && early <= logged <= early + {inode}
  }

  // The blocks reserved by k operations.
  function Reserved(k: nat): nat {
    if k == 0 then 0 else Reserved(k - 1) + MAXOPBLOCKS
  }

  lemma {:induction false} ReservedIs(k: nat)
    ensures Reserved(k) == k * MAXOPBLOCKS
  {
    if k > 0 {
      ReservedIs(k - 1);
    }
  }

  datatype PState = UNUSED | EMBRYO | SLEEPING | RUNNABLE | RUNNING | ZOMBIE
}
