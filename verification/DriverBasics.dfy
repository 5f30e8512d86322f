/** What the drivers share: optional values, bytes, and the kernel's error numbers. */
module DriverBasics {
  datatype Option<+T> = None | Some(value: T)

  type Byte = b: int | 0 <= b < 256

  const ENOENT := 2
  const EIO := 5
  const ENOMEM := 12
  const EFAULT := 14
  const EBUSY := 16
  const ENODEV := 19
  const ENOSPC := 28
  const ETIMEDOUT := 110

  function Min(a: nat, b: nat): nat {
    if a < b then a else b
  }

  function One(b: bool): nat {
    if b then 1 else 0
  }
}
