/** What the two servers' POSIX socket calls have in common: the address
    they bind and the log of calls they make. */
module SocketCalls {

  /** `INADDR_ANY`: every local interface. */
  const AnyAddress: nat := 0

  /** `htons(port)`: the port as the 16-bit value the address holds. */
  function WirePort(port: int): (p: nat)
    ensures p < 0x1_0000
    ensures 0 <= port < 0x1_0000 ==> p == port
  {
    port % 0x1_0000
  }

  /** The most recent call in a log. */
  function Last<T>(calls: seq<T>): T
    requires calls != []
  {
    calls[|calls| - 1]
  }
}
