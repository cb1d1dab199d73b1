/** Routing configuration, requests, and the outside world that routing decisions consult. */
module RoutingTypes {
  import opened Common
  import opened Bytes

  datatype Backend = Backend(host: GoString, port: int, weight: int, meta: map<string, string>)

  /** The zero value, standing for "no backend". */
  const NO_BACKEND := Backend("", 0, 0, map[])

  predicate SameAddress(a: Backend, b: Backend) {
    a.host == b.host && a.port == b.port
  }

  datatype SortKey = SortKey(key: string, order: string, kind: string)

  datatype Filter = Filter(kind: string, subject: string, left: string, op: string, right: string,
                           enabledKey: string, listKey: string, key: string)

  datatype Fallback = Fallback(strategy: Option<string>, key: Option<string>, sample: Option<int>,
                               sort: Option<seq<SortKey>>, limit: Option<int>, filters: Option<seq<Filter>>)

  datatype Discovery = Discovery(provider: string, mode: string)

  /** The static backends are a shared array: routing reads it through this reference. */
  datatype Pool = Pool(strategy: string, key: string, sample: int, sort: seq<SortKey>, limit: int,
                       filters: seq<Filter>, fallback: seq<Fallback>, backends: array<Backend>,
                       discovery: Option<Discovery>)

  datatype Route = Route(hostnames: seq<string>, pool: Pool)

  datatype Request = Request(sni: string, uuid: string, username: string, language: string)

  datatype RouteError =
    | NoBackends | UnknownStrategy | InvalidWeightedPool | EmptyKey
    | DiscoveryFailed | DiscoveryNotSet | InvalidDiscoveryMode

  /** A float64, with rationals for its finite values. */
  datatype Num = NaN | NegInf | Fin(value: real) | PosInf

  /** IEEE "<": false whenever NaN is involved. */
  predicate NumLess(a: Num, b: Num) {
    match (a, b)
    case (Fin(x), Fin(y)) => x < y
    case (NegInf, Fin(_)) => true
    case (NegInf, PosInf) => true
    case (Fin(_), PosInf) => true
    case _ => false
  }

  /** IEEE "==": NaN equals nothing. */
  predicate NumEq(a: Num, b: Num) {
    a == b && a != NaN
  }

  /** Without NaN, any two numbers stand in exactly one relation. */
  lemma NumTrichotomy(a: Num, b: Num)
    requires a != NaN && b != NaN
    ensures NumLess(a, b) || NumEq(a, b) || NumLess(b, a)
    ensures !(NumLess(a, b) && NumLess(b, a)) && (NumEq(a, b) ==> !NumLess(a, b) && !NumLess(b, a))
  {
  }

  /** Rationals in their own order, between the infinities; NaN in no relation at all. */
  lemma NumPlaces(x: real, y: real, a: Num)
    ensures (NumLess(Fin(x), Fin(y)) <==> x < y) && (NumEq(Fin(x), Fin(y)) <==> x == y)
    ensures NumLess(NegInf, Fin(x)) && NumLess(Fin(x), PosInf) && NumLess(NegInf, PosInf)
    ensures !NumLess(NaN, a) && !NumLess(a, NaN) && !NumEq(NaN, a) && !NumEq(a, NaN)
  {
  }

  /** Library functions and the clock, as they answer during one decision. */
  datatype World = World(
    parseFloat: string -> Option<Num>,
    parseInt: string -> Option<int>,
    parseList: string -> Option<seq<string>>,
    globMatches: (string, string) -> bool,
    nowMillis: int)
}
