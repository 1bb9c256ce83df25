/** The optional value used wherever the Rust code returns an `Option`, or
    panics through `expect`/`unwrap` (the panic is modelled as `None`). */
module Wrappers {

  datatype Option<+T> = None | Some(value: T)
  {
    /** With these three members `var x :- e;` stops at the first `None`,
        as `?` does in Rust. */
    predicate IsFailure()
    {
      None?
    }

    function PropagateFailure<U>(): Option<U>
      requires None?
    {
      None
    }

    function Extract(): T
      requires Some?
    {
      value
    }
  }
}
