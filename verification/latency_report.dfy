/** The three-line latency report both ping-pong benchmarks print from their
    timestamp series: `t1` local send times, `t2` remote stamps, `t3` local
    receive times. Row `i` of "request" is `t2[i] - t1[i]`, of "response"
    `t3[i] - t2[i]`, for every `i < |t3|`, each read through `.at`. */
module LatencyReport {

  /** `OutOfRange` is the `std::out_of_range` an `.at` would throw. */
  datatype Report = Report(request: seq<int>, response: seq<int>) | OutOfRange

  function Differences(t1: seq<int>, t2: seq<int>, t3: seq<int>): (r: Report)
    ensures r.Report? <==> |t3| <= |t1| && |t3| <= |t2|
    ensures r.Report? ==> |r.request| == |t3| && |r.response| == |t3|
    ensures r.Report? ==> forall i :: 0 <= i < |t3| ==>
      && r.request[i] == t2[i] - t1[i]
      && r.response[i] == t3[i] - t2[i]
      && r.request[i] + r.response[i] == t3[i] - t1[i]
  {
    if |t3| <= |t1| && |t3| <= |t2| then
      Report(seq(|t3|, i requires 0 <= i < |t3| => t2[i] - t1[i]),
             seq(|t3|, i requires 0 <= i < |t3| => t3[i] - t2[i]))
    else OutOfRange
  }
}
