/** Option and Result for the styles codec, and the ways reading the styles part can fail. */
module Wrappers {

  datatype Option<+T> = None | Some(value: T) {
    /** The value, or `default` when there is none. */
    function GetOr(default: T): T {
      if Some? then value else default
    }
  }

  /** The failures the reader can raise. In the source each is a C++ exception that aborts the read. */
  datatype Error =
    /** `unordered_map::at` on a keyword that is not in an enum table */
    | UnknownEnumValue(keyword: string)
    /** `std::stoull` on text that is not a decimal number */
    | InvalidNumber(text: string)
    /** `vector::at` with an index past the end of a registry */
    | IndexOutOfRange(index: nat, size: nat)
    /** `style_name_map.at` with an index no named style was joined to */
    | UnmappedStyle(index: nat)

  datatype Result<+T> = Ok(value: T) | Err(error: Error) {
    predicate IsFailure() { Err? }

    function PropagateFailure<U>(): Result<U>
      requires Err?
    {
      Err(error)
    }

    function Extract(): T
      requires Ok?
    {
      value
    }
  }
}
