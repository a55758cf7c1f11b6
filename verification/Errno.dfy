/** The error numbers the operations answer with, negated. */
module Errno {
  const ENOENT: int := 2
  const EEXIST: int := 17
  const ENOTDIR: int := 20
  const EISDIR: int := 21
  const EINVAL: int := 22
  const EFBIG: int := 27
  const ENOSPC: int := 28
  const ENAMETOOLONG: int := 36
  const ENOTEMPTY: int := 39
}
