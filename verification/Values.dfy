/** Values shared by the other modules: options, results, JavaScript values and error kinds. */
module Values {

  datatype Option<+T> = None | Some(value: T)

  /** The errors a native call can raise, by cause. Message texts are not modelled. */
  datatype Fault =
    | InvalidIp       // the text is not an IP address
    | WrongVersion    // an IPv6 address looked up in an IPv4-only database
    | Closed          // the reader has no database
    | BadData         // the database bytes do not decode
    | InvalidPath     // a path element is not a key or a safe integer
    | UnknownPathId   // no compiled path has this id
    | TooManyPaths    // the 32-bit id counter is used up
    | InvalidPageSize // a page size of zero, or outside 1 .. 2^32 - 1
    | OpenFailed      // a replacement database could not be opened
    | HookFailed      // the user's hook threw
    | ReaderClosed    // a reload finished after its reader was closed
    | BufferBacked    // a reload of a reader that has no file
    | HandleClosed    // a path lookup was used after its close()

  datatype Result<+T> = Ok(value: T) | Err(fault: Fault)

  newtype byte = x: int | 0 <= x < 256

  /** A JavaScript value as the decoder builds it. Object keys are JavaScript strings
      given by their code units. */
  datatype Js =
    | Null
    | Primitive(bits: nat)
    | Text(units: seq<nat>)
    | Buffer(bytes: seq<byte>)
    | Array(elems: seq<Js>)
    | Object(props: map<seq<nat>, Js>)
  {
    /** typeof gives "object": the only values the record cache keeps. Null has its own N-API type. */
    predicate IsObject() {
      Buffer? || Array? || Object?
    }
  }

  function Min(a: nat, b: nat): nat {
    if a <= b then a else b
  }

  /** The first n elements, or all of them when there are fewer. */
  function Take<T>(s: seq<T>, n: nat): seq<T> {
    s[..Min(n, |s|)]
  }
}
