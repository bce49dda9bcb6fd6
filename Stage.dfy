/** What a measurement stage launches, one record per pair index: the client
    host runs the measurement tool against the server host. The processes
    themselves, their output and the stage deadline are not part of the model. */
module Stage {

  /** The process a stage starts for one pair: `client` measures towards
      `server` for `duration` seconds. */
  datatype Launch = Launch(client: string, server: string, duration: int)

  /** `IPERF_TEST_DURATION + len(clients) - index`: the iperf duration for the
      pair at `index` when the clients are started one second apart, so that
      every client runs until roughly the same moment. */
  function StaggeredDuration(base: int, count: nat, index: nat): (d: int)
    requires index < count
    ensures base + 1 <= d <= base + count
  {
    base + count - index
  }
}
