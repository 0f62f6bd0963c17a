/** The optional-value type shared by the model: a value or its absence.
    The functions that model an operation which can panic (a failed
    `unwrap`, an out-of-bounds index, an overflowing `u16` operation) return
    `None` for the panic, and say so in their documentation; elsewhere
    `None` is plain absence, such as no polled event or no flag at an index. */
module Wrappers {

  datatype Option<+T> = None | Some(value: T)
}
