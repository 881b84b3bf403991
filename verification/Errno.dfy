// The error codes of the C library, negated as the firmware returns them.
module Errno {
  const ENOENT := -2
  const EIO := -5
  const ENOMEM := -12
  const EINVAL := -22
  const ENAMETOOLONG := -36
}
