/** What several of the models share. */
module Basics {
  const MAXOPBLOCKS := 10           // blocks that one file system operation may log
  const LOGSIZE := MAXOPBLOCKS * 3  // blocks that the log header lists at most
  const NBUF := MAXOPBLOCKS * 3     // buffers in the cache

  datatype Option<+T> = None | Some(value: T)

  type byte = x: int | 0 <= x < 256

  /** A NUL-terminated string without its terminator. */
  type CString = s: string | '\0' !in s

  /** The character a pointer reads: the terminator lies one past the last character. */
  function At(s: CString, i: int): char
    requires 0 <= i <= |s|
  {
    if i < |s| then s[i] else '\0'
  }

  /** The holder of a lock after process or CPU q moved on to a place where it holds it or not. */
  function Passed(lock: Option<int>, q: int, holds: bool): Option<int> {
    if holds then Some(q) else if lock == Some(q) then None else lock
  }

  lemma SubsetSize<T>(a: set<T>, b: set<T>)
    requires a <= b
    ensures |a| <= |b|
  {
    assert a + (b - a) == b;
  }

  lemma UnionSize<T>(a: set<T>, b: set<T>)
    ensures |a + b| <= |a| + |b|
  {
    SubsetSize(b - a, b);
    assert a + b == a + (b - a);
  }
}
