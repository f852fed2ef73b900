/** Text as a list of parts, and paths as components. */
module Joining {
  import opened Bytes

  function Join(parts: seq<string>, separator: string): string
  {
    if parts == [] then ""
    else if |parts| == 1 then parts[0]
    else parts[0] + separator + Join(parts[1..], separator)
  }

  const SLASH: Byte := 47

  /** A path below a directory, or at the top. */
  function Joined(prefix: seq<Byte>, name: seq<Byte>): seq<Byte>
  {
    if prefix == [] then name else prefix + [SLASH] + name
  }
}
