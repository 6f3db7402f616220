/** Constants of src/config.h and src/status.h that several parts share. */
module Config {
  const MAX_PATH := 108

  const EIO := 1
  const EINVARG := 2
  const ENOMEM := 3
  const EISTKN := 8
}
