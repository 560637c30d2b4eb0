/** What the core sends to and receives from the measurement platform. The
    platform itself is represented only by the two oracle types below. */
module Atlas {
  import opened Wrappers
  import opened IdStore

  /** The K-root anchor every measurement targets. */
  const KRootAddress: string := "193.0.14.129"

  /** How many probes each country's measurement asks for. */
  const ProbesPerCountry: nat := 50

  datatype Measurement =
    | Traceroute(af: int, target: string, protocol: string, description: string)
    | Dns(af: int, target: string, queryArgument: string, queryType: string,
          queryClass: string, description: string)

  datatype ProbeSource = ProbeSource(value: Country, requested: nat, kind: string, action: string)

  /** One combined creation request (start time and API key are left out). */
  datatype CreateRequest = CreateRequest(measurements: seq<Measurement>, sources: seq<ProbeSource>, isOneOff: bool)

  /** The request `create_measurement` builds for a country: a traceroute and
      then a DNS query, both to the K-root anchor, from 50 probes in that
      country, run once. */
  function MeasurementRequest(cc: Country): (req: CreateRequest)
    ensures |req.measurements| == 2
    ensures req.measurements[0].Traceroute? && req.measurements[1].Dns?
    ensures forall m :: m in req.measurements ==> m.target == KRootAddress && m.af == 4
    ensures req.sources == [ProbeSource(cc, ProbesPerCountry, "country", "add")] && req.isOneOff
  {
    CreateRequest(
      [Traceroute(4, KRootAddress, "ICMP", "Traceroute from " + cc + " to K Root"),
       Dns(4, KRootAddress, "com.", "NS", "IN", "DNS Response time fromt " + cc + " to K Root")],
      [ProbeSource(cc, ProbesPerCountry, "country", "add")],
      true)
  }

  /** The platform's answer to the k-th creation request of a run: the ids
      it assigned, one per measurement in the order of the request, or a
      failure. */
  type CreateOracle = (nat, CreateRequest) -> Option<Pair>

  /** The platform's answer to a results request for one measurement id. */
  datatype Fetch<R> = Fetched(results: seq<R>) | FetchFailed

  /** One printed report line `cc, num_probes, average`. */
  datatype SummaryLine = SummaryLine(country: Country, count: nat, average: int)
}
