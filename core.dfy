/** Values shared by the pool, array and list modules: the null address,
    an optional value, and the NGX_OK / NGX_ERROR status codes. */
module NgxCore {

  /** Addresses are plain integers; address 0 is the null pointer. */
  const Null: int := 0

  datatype Option<T> = None | Some(value: T)

  /** NGX_OK and NGX_ERROR, the two results of the init functions. */
  datatype Status = Ok | Error

  function Max(x: int, y: int): int { if x >= y then x else y }

  function Min(x: int, y: int): int { if x <= y then x else y }
}
